/**
 * ProjectRepository: the project table as a store object, and the two per-user reads the
 * project service issues (`findByNameAndUserId`, `findAllByUserId`) as functions of a snapshot.
 */
module ProjectRepository {
  import opened Wrappers
  import opened Entities
  import opened Errors
  import opened Tables

  /** The keys of the projects of owner `uid` called `name`. */
  function Matching(projects: map<ProjectId, Project>, name: string, uid: UserId): (ks: set<ProjectId>)
    ensures forall k :: k in ks <==> k in projects && projects[k].name == name && projects[k].owner == Some(uid)
  {
    set k | k in projects && projects[k].name == name && projects[k].owner == Some(uid)
  }

  lemma SingletonSet(s: set<ProjectId>, x: ProjectId)
    requires |s| == 1 && x in s
    ensures s == {x}
  {
    assert s == (s - {x}) + {x};
    assert |s - {x}| == 0;
  }

  /**
   * `findByNameAndUserId`, a derived query with an `Optional` result: no row gives an empty
   * result, one row gives that row, and more than one row makes the query throw.
   */
  function FindByNameAndUserId(projects: map<ProjectId, Project>, name: string, uid: UserId)
    : (r: Result<Option<Project>, Error>)
    ensures r == Ok(None) <==> Matching(projects, name, uid) == {}
    ensures r.Err? <==> |Matching(projects, name, uid)| >= 2
    ensures r.Err? ==> r.error == NonUniqueResult
    ensures r.Ok? && r.value.Some? ==>
              exists k :: Matching(projects, name, uid) == {k} && r.value.value == projects[k]
  {
    var ks := Matching(projects, name, uid);
    if ks == {} then Ok(None)
    else if |ks| == 1 then
      var k := Min(ks);
      SingletonSet(ks, k);
      Ok(Some(projects[k]))
    else Err(NonUniqueResult)
  }

  /** No owner has two projects of the same name. */
  ghost predicate NamesUniquePerOwner(projects: map<ProjectId, Project>) {
    forall a, b ::
      a in projects && b in projects && projects[a].owner.Some?
      && projects[a].owner == projects[b].owner && projects[a].name == projects[b].name
      ==> a == b
  }

  /** While names are unique per owner, the name lookup never throws. */
  lemma UniqueNamesLookUpCleanly(projects: map<ProjectId, Project>, name: string, uid: UserId)
    requires NamesUniquePerOwner(projects)
    ensures FindByNameAndUserId(projects, name, uid).Ok?
  {
    var ks := Matching(projects, name, uid);
    if ks != {} {
      var k := Pick(ks);
      forall j | j in ks ensures j == k {
      }
      assert ks == {k};
    }
  }

  lemma KeyedInjective(m: map<ProjectId, Project>)
    requires ProjectsKeyed(m)
    ensures Injective(m)
  {
  }

  /** The projects of owner `uid`. */
  function OwnedBy(projects: map<ProjectId, Project>, uid: UserId): (m: map<ProjectId, Project>)
    ensures forall k :: k in m <==> k in projects && projects[k].owner == Some(uid)
    ensures forall k :: k in m ==> m[k] == projects[k]
  {
    map k | k in projects && projects[k].owner == Some(uid) :: projects[k]
  }

  lemma OwnedByValues(projects: map<ProjectId, Project>, uid: UserId)
    ensures forall p :: p in OwnedBy(projects, uid).Values <==> p in projects.Values && p.owner == Some(uid)
  {
    var m := OwnedBy(projects, uid);
    forall p | p in projects.Values && p.owner == Some(uid)
      ensures p in m.Values
    {
      var k := KeyOf(projects, p);
      assert k in m;
    }
  }

  /** `findAllByUserId`: every project of the owner, each once. */
  function FindAllByUserId(projects: map<ProjectId, Project>, uid: UserId): (r: seq<Project>)
    requires ProjectsKeyed(projects)
    ensures forall p :: p in r <==> p in projects.Values && p.owner == Some(uid)
    ensures forall i, j :: 0 <= i < j < |r| ==> r[i] != r[j]
  {
    var m := OwnedBy(projects, uid);
    KeyedInjective(m);
    RowsAreValues(m);
    var r := Rows(m);
    SetMultisetNoDup(r, m.Values);
    SetMultisetMembers(r, m.Values);
    OwnedByValues(projects, uid);
    r
  }

  /** The project table. */
  class ProjectStore {
    var projects: map<ProjectId, Project>
    var nextId: ProjectId

    ghost predicate Valid()
      reads this
    {
      ProjectsKeyed(projects) && forall k :: k in projects ==> k < nextId
    }

    constructor ()
      ensures Valid() && projects == map[]
    {
      projects := map[];
      nextId := 1;
    }

    /** `save`: a project whose id is stored is overwritten; any other is inserted under a new key. */
    method Save(p: Project) returns (saved: Project)
      requires Valid()
      modifies this
      ensures Valid()
      ensures saved == p.(id := Some(SaveKey(old(projects), p.id, old(nextId))))
      ensures projects == old(projects)[saved.id.value := saved]
      ensures nextId == if saved.id.value in old(projects) then old(nextId) else old(nextId) + 1
    {
      var k := SaveKey(projects, p.id, nextId);
      saved := p.(id := Some(k));
      projects := projects[k := saved];
      if k == nextId {
        nextId := nextId + 1;
      }
    }

    /** `deleteById`: a missing id deletes nothing. */
    method DeleteById(id: ProjectId)
      requires Valid()
      modifies this
      ensures Valid()
      ensures projects == old(projects) - {id} && nextId == old(nextId)
    {
      projects := projects - {id};
    }
  }
}
