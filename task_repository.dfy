/**
 * TaskRepository: the task table as a store object, and its two natural-order JPQL listings as
 * functions of a snapshot of that table.
 */
module TaskRepository {
  import opened Wrappers
  import opened Entities
  import opened Tables
  import opened TaskOrder

  /** The rows of the task table whose `projectId` is `scope` (`None` selects `IS NULL`). */
  function InScope(tasks: map<TaskId, Task>, scope: Option<ProjectId>): (m: map<TaskId, Task>)
    ensures forall k :: k in m <==> k in tasks && tasks[k].projectId == scope
    ensures forall k :: k in m ==> m[k] == tasks[k]
  {
    map k | k in tasks && tasks[k].projectId == scope :: tasks[k]
  }

  lemma KeyedInjective(m: map<TaskId, Task>)
    requires TasksKeyed(m)
    ensures Injective(m)
  {
  }

  /**
   * What both listings' ORDER BY promises whatever the database: important tasks come first,
   * and within one importance class two dated tasks appear by ascending due date.
   */
  ghost predicate NaturallyOrdered(r: seq<Task>) {
    (forall i, j :: 0 <= i < j < |r| && r[j].isImportant == Some(true) ==> r[i].isImportant == Some(true))
    && forall i, j ::
         0 <= i < j < |r| && Rank(r[i]) == Rank(r[j]) && r[i].dueDate.Some? && r[j].dueDate.Some?
         ==> r[i].dueDate.value <= r[j].dueDate.value
  }

  /** Both JPQL listings: the tasks of one scope, in the listings' order. */
  function Listing(tasks: map<TaskId, Task>, scope: Option<ProjectId>): (r: seq<Task>)
    requires TasksKeyed(tasks)
    ensures multiset(r) == multiset(InScope(tasks, scope).Values)
    ensures forall t :: t in r <==> t in tasks.Values && t.projectId == scope
    ensures forall i, j :: 0 <= i < j < |r| ==> r[i] != r[j]
    ensures NaturallyOrdered(r)
  {
    var m := InScope(tasks, scope);
    KeyedInjective(m);
    RowsAreValues(m);
    var r := Sort(Natural, Rows(m));
    SetMultisetNoDup(r, m.Values);
    SetMultisetMembers(r, m.Values);
    InScopeValues(tasks, scope);
    NaturalIsOrdered(r);
    r
  }

  lemma InScopeValues(tasks: map<TaskId, Task>, scope: Option<ProjectId>)
    ensures forall t :: t in InScope(tasks, scope).Values <==> t in tasks.Values && t.projectId == scope
  {
    var m := InScope(tasks, scope);
    forall t | t in tasks.Values && t.projectId == scope
      ensures t in m.Values
    {
      var k := KeyOf(tasks, t);
      assert k in m;
    }
  }

  /** A list sorted by the listings' comparator is in the order both listings promise. */
  lemma NaturalIsOrdered(r: seq<Task>)
    requires Sorted(Natural, r)
    ensures NaturallyOrdered(r)
  {
    forall i, j | 0 <= i < j < |r|
      ensures r[j].isImportant == Some(true) ==> r[i].isImportant == Some(true)
    {
      assert Le(Natural, r[i], r[j]);
    }
    forall i, j | 0 <= i < j < |r| && Rank(r[i]) == Rank(r[j]) && r[i].dueDate.Some? && r[j].dueDate.Some?
      ensures r[i].dueDate.value <= r[j].dueDate.value
    {
      assert Le(Natural, r[i], r[j]);
    }
  }

  /** `findAllByProjectIdIsNullOrderByIsImportantAscDueDateAsc`: the tasks of no project. */
  function FindAllGlobal(tasks: map<TaskId, Task>): (r: seq<Task>)
    requires TasksKeyed(tasks)
    ensures forall t :: t in r <==> t in tasks.Values && t.projectId == None
    ensures forall i, j :: 0 <= i < j < |r| ==> r[i] != r[j]
    ensures NaturallyOrdered(r)
  {
    Listing(tasks, None)
  }

  /**
   * `findAllByProjectIdOrderByIsImportantDescDueDateDesc`: the tasks of project `p`, in the same
   * order as the global listing (important first, then due date ascending), whatever its name says.
   */
  function FindAllByProject(tasks: map<TaskId, Task>, p: ProjectId): (r: seq<Task>)
    requires TasksKeyed(tasks)
    ensures forall t :: t in r <==> t in tasks.Values && t.projectId == Some(p)
    ensures forall i, j :: 0 <= i < j < |r| ==> r[i] != r[j]
    ensures NaturallyOrdered(r)
  {
    Listing(tasks, Some(p))
  }

  /** The table after `deleteByProjectId(p)`. */
  function WithoutProject(tasks: map<TaskId, Task>, p: ProjectId): (m: map<TaskId, Task>)
    ensures forall k :: k in m <==> k in tasks && tasks[k].projectId != Some(p)
    ensures forall k :: k in m ==> m[k] == tasks[k]
  {
    map k | k in tasks && tasks[k].projectId != Some(p) :: tasks[k]
  }

  /** After the bulk delete project `p` lists nothing and every other scope lists what it did. */
  lemma WithoutProjectListings(tasks: map<TaskId, Task>, p: ProjectId, scope: Option<ProjectId>)
    requires TasksKeyed(tasks)
    ensures TasksKeyed(WithoutProject(tasks, p))
    ensures Listing(WithoutProject(tasks, p), Some(p)) == []
    ensures scope != Some(p) ==> Listing(WithoutProject(tasks, p), scope) == Listing(tasks, scope)
  {
    var w := WithoutProject(tasks, p);
    var r := Listing(w, Some(p));
    assert forall t :: t !in r;
    if scope != Some(p) {
      assert InScope(w, scope) == InScope(tasks, scope);
    }
  }

  /** The ids of a result list, in order: `stream().map(TaskEntity::getId).toList()`. */
  function Ids(s: seq<Task>): (r: seq<Option<TaskId>>)
    ensures |r| == |s|
    ensures forall i :: 0 <= i < |s| ==> r[i] == s[i].id
  {
    if s == [] then [] else [s[0].id] + Ids(s[1..])
  }

  /** A listing's ids: every stored task of the scope, by its key, once, and no `null`. */
  lemma ListingIds(tasks: map<TaskId, Task>, scope: Option<ProjectId>)
    requires TasksKeyed(tasks)
    ensures None !in Ids(Listing(tasks, scope))
    ensures forall k :: Some(k) in Ids(Listing(tasks, scope)) <==> k in tasks && tasks[k].projectId == scope
    ensures var ids := Ids(Listing(tasks, scope)); forall i, j :: 0 <= i < j < |ids| ==> ids[i] != ids[j]
  {
    var r := Listing(tasks, scope);
    var ids := Ids(r);
    forall i | 0 <= i < |r|
      ensures ids[i].Some? && ids[i].value in tasks && tasks[ids[i].value] == r[i]
    {
      ListedKey(tasks, scope, r, i);
    }
    forall k | k in tasks && tasks[k].projectId == scope
      ensures Some(k) in ids
    {
      assert tasks[k] in tasks.Values;
      var i := IndexOf(r, tasks[k]);
      assert ids[i] == Some(k);
    }
  }

  /** A listed task is stored under the key its id names. */
  lemma ListedKey(tasks: map<TaskId, Task>, scope: Option<ProjectId>, r: seq<Task>, i: int)
    requires TasksKeyed(tasks) && r == Listing(tasks, scope) && 0 <= i < |r|
    ensures r[i].id.Some? && r[i].id.value in tasks && tasks[r[i].id.value] == r[i]
  {
    assert r[i] in r;
    var k := KeyOf(tasks, r[i]);
  }

  lemma IndexOf(r: seq<Task>, t: Task) returns (i: int)
    requires t in r
    ensures 0 <= i < |r| && r[i] == t
  {
    i :| 0 <= i < |r| && r[i] == t;
  }

  /** The task table. `nextId` is the next key the identity column hands out. */
  class TaskStore {
    var tasks: map<TaskId, Task>
    var nextId: TaskId

    ghost predicate Valid()
      reads this
    {
      TasksKeyed(tasks) && forall k :: k in tasks ==> k < nextId
    }

    constructor ()
      ensures Valid() && tasks == map[]
    {
      tasks := map[];
      nextId := 1;
    }

    /** `save`: a task whose id is stored is overwritten; any other is inserted under a new key. */
    method Save(t: Task) returns (saved: Task)
      requires Valid()
      modifies this
      ensures Valid()
      ensures saved == t.(id := Some(SaveKey(old(tasks), t.id, old(nextId))))
      ensures tasks == old(tasks)[saved.id.value := saved]
      ensures nextId == if saved.id.value in old(tasks) then old(nextId) else old(nextId) + 1
    {
      var k := SaveKey(tasks, t.id, nextId);
      saved := t.(id := Some(k));
      tasks := tasks[k := saved];
      if k == nextId {
        nextId := nextId + 1;
      }
    }

    /** `deleteById`: a missing id deletes nothing. */
    method DeleteById(id: TaskId)
      requires Valid()
      modifies this
      ensures Valid()
      ensures tasks == old(tasks) - {id} && nextId == old(nextId)
    {
      tasks := tasks - {id};
    }

    /** `deleteByProjectId`. */
    method DeleteByProjectId(p: ProjectId)
      requires Valid()
      modifies this
      ensures Valid()
      ensures tasks == WithoutProject(old(tasks), p) && nextId == old(nextId)
    {
      tasks := WithoutProject(tasks, p);
    }
  }
}
