/** The task list of `app/routes/dashboard.tasks.tsx`: a conjunctive filter
    over search text, priority, status and project, the project drop-down
    derived from the tasks, the URL parameters that carry the filters, and
    the per-task priority and status changes. */
module Tasks {
  import opened Builtins

  datatype Priority = Critique | Haute | Moyenne | Basse
  datatype Status = AFaire | EnCours | EnRevision | Termine | EnAttente

  /** The string a `TaskPriority` is at run time. */
  function PriorityLabel(p: Priority): string
  {
    match p
    case Critique => "Critique"
    case Haute => "Haute"
    case Moyenne => "Moyenne"
    case Basse => "Basse"
  }

  /** The string a `TaskStatus` is at run time. */
  function StatusLabel(s: Status): string
  {
    match s
    case AFaire => "À faire"
    case EnCours => "En cours"
    case EnRevision => "En révision"
    case Termine => "Terminé"
    case EnAttente => "En attente"
  }

  datatype Assignee = Assignee(id: string, email: string)

  datatype Task = Task(
    id: string,
    title: string,
    description: Option<string>,
    priority: Priority,
    status: Status,
    dueDate: Option<string>,
    projectId: string,
    projectName: string,
    assignees: seq<Assignee>,
    createdAt: string,
    updatedAt: string)

  /** The four filter inputs; the empty string means "no filter". */
  datatype Filters = Filters(search: string, priority: string, status: string, project: string)

  const NoFilters := Filters("", "", "", "")

  // ---------------------------------------------------------------------
  // filteredTasks

  /** The search-box test for one task: an empty term keeps everything;
      otherwise the lowercased term must occur in the lowercased title or
      in a non-empty description. */
  predicate MatchesSearch(t: Task, term: string)
  {
    if term != "" then
      || Contains(Lower(t.title), Lower(term))
      || (t.description.Some? && t.description.value != ""
          && Contains(Lower(t.description.value), Lower(term)))
    else true
  }

  predicate Matches(t: Task, f: Filters)
  {
    && MatchesSearch(t, f.search)
    && (if f.priority != "" then PriorityLabel(t.priority) == f.priority else true)
    && (if f.status != "" then StatusLabel(t.status) == f.status else true)
    && (if f.project != "" then t.projectId == f.project else true)
  }

  /** `filteredTasks`: only tasks of the list that pass every filter. */
  function FilteredTasks(tasks: seq<Task>, f: Filters): (shown: seq<Task>)
    ensures |shown| <= |tasks|
    ensures forall i :: 0 <= i < |shown| ==> shown[i] in tasks && Matches(shown[i], f)
  {
    Filter(tasks, (t: Task) => Matches(t, f))
  }

  /** The filtered list keeps the tasks' relative order, and a task that
      passes appears as many times as in the list. */
  lemma FilteredTasksIsSubsequence(tasks: seq<Task>, f: Filters)
    ensures IsSubsequence(FilteredTasks(tasks, f), tasks)
    ensures forall i :: 0 <= i < |tasks| && Matches(tasks[i], f) ==>
      multiset(FilteredTasks(tasks, f))[tasks[i]] == multiset(tasks)[tasks[i]]
  {
    FilterIsSubsequence(tasks, (t: Task) => Matches(t, f));
    forall i | 0 <= i < |tasks| {
      FilterKeepsMultiplicity(tasks, (t: Task) => Matches(t, f), tasks[i]);
    }
  }

  /** A task of the list is shown exactly when it passes every filter that
      is set: the search term (in the title, or in a non-null, non-empty
      description, both lowercased), the exact priority label, the exact
      status label and the exact project id. */
  lemma FilteredTasksExactly(tasks: seq<Task>, f: Filters, t: Task)
    requires t in tasks
    ensures t in FilteredTasks(tasks, f) <==>
      && (f.search != "" ==>
            || Contains(Lower(t.title), Lower(f.search))
            || (t.description.Some? && t.description.value != ""
                && Contains(Lower(t.description.value), Lower(f.search))))
      && (f.priority != "" ==> PriorityLabel(t.priority) == f.priority)
      && (f.status != "" ==> StatusLabel(t.status) == f.status)
      && (f.project != "" ==> t.projectId == f.project)
  {
    var i :| 0 <= i < |tasks| && tasks[i] == t;
    assert Matches(tasks[i], f) ==> tasks[i] in FilteredTasks(tasks, f);
  }

  /** With all four filters empty, every task is shown, in order. */
  lemma NoFiltersShowsAll(tasks: seq<Task>)
    ensures FilteredTasks(tasks, NoFilters) == tasks
  {
    FilterKeepsAll(tasks, (t: Task) => Matches(t, NoFilters));
  }

  // ---------------------------------------------------------------------
  // The project drop-down

  datatype ProjectOption = ProjectOption(id: string, name: string)

  function ProjectIds(tasks: seq<Task>): (r: seq<string>)
    ensures |r| == |tasks| && forall i :: 0 <= i < |tasks| ==> r[i] == tasks[i].projectId
  {
    seq(|tasks|, i requires 0 <= i < |tasks| => tasks[i].projectId)
  }

  /** `tasks.find(task => task.projectId === projectId)`. */
  function FirstOfProject(tasks: seq<Task>, projectId: string): Option<Task>
  {
    Find(tasks, (t: Task) => t.projectId == projectId)
  }

  /** `projects`: one option per distinct project id, in order of first
      appearance, named after the first task of that project. */
  function ProjectOptions(tasks: seq<Task>): (options: seq<ProjectOption>)
    ensures forall i, j :: 0 <= i < j < |options| ==> options[i].id != options[j].id
  {
    var ids := Unique(ProjectIds(tasks));
    seq(|ids|, i requires 0 <= i < |ids| =>
      ProjectOption(ids[i], match FirstOfProject(tasks, ids[i])
                            case Some(t) => t.projectName
                            case None => ""))
  }

  /** The options have distinct ids, and every project id of the tasks has
      one. */
  lemma ProjectOptionsDistinctAndComplete(tasks: seq<Task>)
    ensures forall i, j :: 0 <= i < j < |ProjectOptions(tasks)| ==>
      ProjectOptions(tasks)[i].id != ProjectOptions(tasks)[j].id
    ensures forall k :: 0 <= k < |tasks| ==>
      exists i :: 0 <= i < |ProjectOptions(tasks)| && ProjectOptions(tasks)[i].id == tasks[k].projectId
  {
    var ids := Unique(ProjectIds(tasks));
    var opts := ProjectOptions(tasks);
    forall k | 0 <= k < |tasks|
      ensures exists i :: 0 <= i < |opts| && opts[i].id == tasks[k].projectId
    {
      assert ProjectIds(tasks)[k] in ids;
      var i :| 0 <= i < |ids| && ids[i] == tasks[k].projectId;
      assert opts[i].id == tasks[k].projectId;
    }
  }

  /** Every option is the project id of some task, and is named after the
      first task that carries that id. */
  lemma ProjectOptionNamedAfterFirstTask(tasks: seq<Task>, i: int)
    requires 0 <= i < |ProjectOptions(tasks)|
    ensures exists k ::
      && 0 <= k < |tasks|
      && ProjectOptions(tasks)[i].id == tasks[k].projectId
      && ProjectOptions(tasks)[i].name == tasks[k].projectName
      && forall j :: 0 <= j < k ==> tasks[j].projectId != tasks[k].projectId
  {
    var ids := Unique(ProjectIds(tasks));
    var opts := ProjectOptions(tasks);
    var p := (t: Task) => t.projectId == ids[i];
    FindAgreesWithFindIndex(tasks, p);
    assert ids[i] in ProjectIds(tasks);
    var m :| 0 <= m < |tasks| && ProjectIds(tasks)[m] == ids[i];
    assert p(tasks[m]);
    var k := FindIndex(tasks, p).value;
    assert opts[i].name == tasks[k].projectName;
  }

  /** The options come in the order in which their projects first appear
      in the task list. */
  lemma ProjectOptionsInFirstAppearanceOrder(tasks: seq<Task>)
    ensures forall i, j :: 0 <= i < j < |ProjectOptions(tasks)| ==>
      ProjectOptions(tasks)[i].id in ProjectIds(tasks) && ProjectOptions(tasks)[j].id in ProjectIds(tasks) &&
      FirstAt(ProjectIds(tasks), ProjectOptions(tasks)[i].id) < FirstAt(ProjectIds(tasks), ProjectOptions(tasks)[j].id)
  {
    var pids := ProjectIds(tasks);
    var ids := Unique(pids);
    var opts := ProjectOptions(tasks);
    UniqueKeepsFirstOrder(pids);
    forall i, j | 0 <= i < j < |opts|
      ensures opts[i].id in pids && opts[j].id in pids && FirstAt(pids, opts[i].id) < FirstAt(pids, opts[j].id)
    {
      assert opts[i].id == ids[i] && opts[j].id == ids[j];
    }
  }

  // ---------------------------------------------------------------------
  // URL search parameters

  datatype Param = Param(key: string, value: string)

  /** The keys that occur in `params`. */
  function Keys(params: seq<Param>): (ks: set<string>)
    ensures forall i :: 0 <= i < |params| ==> params[i].key in ks
    ensures forall k :: k in ks ==> exists i :: 0 <= i < |params| && params[i].key == k
  {
    if params == [] then {}
    else
      var ks := Keys(params[1..]);
      assert forall i :: 1 <= i < |params| ==> params[i] == params[1..][i - 1];
      {params[0].key} + ks
  }

  /** No key occurs twice in `params`. */
  predicate DistinctKeys(params: seq<Param>)
  {
    params == [] || (params[0].key !in Keys(params[1..]) && DistinctKeys(params[1..]))
  }

  /** `DistinctKeys` says what its name says: any two pairs have different keys. */
  lemma {:induction false} DistinctKeysPairwise(params: seq<Param>)
    requires DistinctKeys(params)
    ensures forall i, j :: 0 <= i < j < |params| ==> params[i].key != params[j].key
  {
    if params != [] {
      DistinctKeysPairwise(params[1..]);
      forall i, j | 0 <= i < j < |params| ensures params[i].key != params[j].key {
        assert params[j] == params[1..][j - 1];
        if i > 0 {
          assert params[i] == params[1..][i - 1];
        }
      }
    }
  }

  /** Pair `i` is the first pair of `params` with key `key`. */
  predicate FirstPair(params: seq<Param>, key: string, i: int)
  {
    0 <= i < |params| && params[i].key == key && forall j :: 0 <= j < i ==> params[j].key != key
  }

  /** `params.get(key)`: the value of the first pair with that key, and
      nothing when no pair has it. */
  function GetParam(params: seq<Param>, key: string): (r: Option<string>)
    ensures r.Some? <==> key in Keys(params)
    ensures r.Some? ==> exists i :: FirstPair(params, key, i) && params[i].value == r.value
  {
    if params == [] then None
    else if params[0].key == key then Some(params[0].value)
    else
      var r := GetParam(params[1..], key);
      assert forall i :: 0 < i < |params| ==> params[i] == params[1..][i - 1];
      assert forall i :: FirstPair(params, key, i) ==> i > 0 && FirstPair(params[1..], key, i - 1);
      assert r.Some? ==> exists i :: FirstPair(params[1..], key, i) && params[1..][i].value == r.value;
      assert forall i :: FirstPair(params[1..], key, i) ==> FirstPair(params, key, i + 1);
      r
  }

  /** Every pair with key `key` dropped. */
  function RemoveKey(params: seq<Param>, key: string): (r: seq<Param>)
    ensures forall i :: 0 <= i < |r| ==> r[i].key != key
    ensures Keys(r) == Keys(params) - {key}
    ensures DistinctKeys(params) ==> DistinctKeys(r)
  {
    if params == [] then []
    else if params[0].key == key then RemoveKey(params[1..], key)
    else
      var rest := RemoveKey(params[1..], key);
      assert ([params[0]] + rest)[1..] == rest;
      [params[0]] + rest
  }

  /** `params.set(key, value)`: the first pair with that key takes the new
      value and the other pairs with that key go; with no such pair, the
      new pair is appended. */
  function SetParam(params: seq<Param>, key: string, value: string): (r: seq<Param>)
    ensures Keys(r) == Keys(params) + {key}
    ensures DistinctKeys(params) ==> DistinctKeys(r)
  {
    if params == [] then
      assert [Param(key, value)][1..] == [];
      [Param(key, value)]
    else if params[0].key == key then
      var rest := RemoveKey(params[1..], key);
      assert ([Param(key, value)] + rest)[1..] == rest;
      [Param(key, value)] + rest
    else
      var rest := SetParam(params[1..], key, value);
      assert ([params[0]] + rest)[1..] == rest;
      [params[0]] + rest
  }

  lemma {:induction false} GetAfterRemoveKey(params: seq<Param>, key: string, other: string)
    ensures GetParam(RemoveKey(params, key), other) == if other == key then None else GetParam(params, other)
  {
    if params != [] {
      GetAfterRemoveKey(params[1..], key, other);
    }
  }

  /** Reading a key back after `set` gives the value just set, and every
      other key reads as before. */
  lemma {:induction false} GetAfterSet(params: seq<Param>, key: string, value: string, other: string)
    ensures GetParam(SetParam(params, key, value), other) == if other == key then Some(value) else GetParam(params, other)
  {
    if params != [] {
      if params[0].key == key {
        GetAfterRemoveKey(params[1..], key, other);
      } else {
        GetAfterSet(params[1..], key, value, other);
      }
    }
  }

  /** The filter value `v` is what the URL holds for `key`: `""` when no
      pair has the key, and otherwise the value of the first pair that has. */
  predicate ReadsAs(params: seq<Param>, key: string, v: string)
  {
    && ((forall i :: 0 <= i < |params| ==> params[i].key != key) ==> v == "")
    && (forall i :: 0 <= i < |params| && FirstPair(params, key, i) ==> v == params[i].value)
  }

  /** `searchParams.get(key) || ""`. */
  function ParamOrEmpty(params: seq<Param>, key: string): (v: string)
    ensures ReadsAs(params, key, v)
  {
    match GetParam(params, key)
    case Some(v) => v
    case None => ""
  }

  /** The `useEffect` on `searchParams` in `TasksManagement`: the filters
      read back from the URL, each `""` when its parameter is absent. A
      filter is non-empty only when the URL carries that value for it. */
  function FiltersFromParams(params: seq<Param>): (f: Filters)
    ensures f.search != "" ==> Param("search", f.search) in params
    ensures f.priority != "" ==> Param("priority", f.priority) in params
    ensures f.status != "" ==> Param("status", f.status) in params
    ensures f.project != "" ==> Param("project", f.project) in params
    ensures ReadsAs(params, "search", f.search) && ReadsAs(params, "priority", f.priority)
    ensures ReadsAs(params, "status", f.status) && ReadsAs(params, "project", f.project)
  {
    Filters(ParamOrEmpty(params, "search"), ParamOrEmpty(params, "priority"),
            ParamOrEmpty(params, "status"), ParamOrEmpty(params, "project"))
  }

  /** The entry for `key` in the parameters that `updateFilters` builds. */
  function Expected(value: string): Option<string>
  {
    if value != "" then Some(value) else None
  }

  /** The four keys the filters are stored under. */
  const FilterKeys: set<string> := {"search", "priority", "status", "project"}

  /** One step of `updateFilters`, `if (value) params.set(key, value)`:
      with a non-empty value the key now reads as that value, and every
      other key reads as before; the parameters keep to the filter keys,
      each at most once. */
  method SetIfPresent(params: seq<Param>, key: string, value: string) returns (r: seq<Param>)
    requires key in FilterKeys && Keys(params) <= FilterKeys && DistinctKeys(params)
    ensures Keys(r) <= FilterKeys && DistinctKeys(r)
    ensures GetParam(r, key) == if value != "" then Some(value) else GetParam(params, key)
    ensures forall k :: k in FilterKeys && k != key ==> GetParam(r, k) == GetParam(params, k)
  {
    r := params;
    if value != "" {
      forall k | k in FilterKeys {
        GetAfterSet(params, key, value, k);
      }
      r := SetParam(params, key, value);
    }
  }

  /** A URL whose four lookups give what `Expected` asks for reads back as `f`. */
  lemma ReadBackExpected(params: seq<Param>, f: Filters)
    requires GetParam(params, "search") == Expected(f.search)
    requires GetParam(params, "priority") == Expected(f.priority)
    requires GetParam(params, "status") == Expected(f.status)
    requires GetParam(params, "project") == Expected(f.project)
    ensures FiltersFromParams(params) == f
  {
  }

  /** `updateFilters`: fresh parameters with one entry per non-empty
      filter and nothing else. Reading the parameters back gives the
      filters again. */
  method UpdateFilters(f: Filters) returns (params: seq<Param>)
    ensures GetParam(params, "search") == Expected(f.search)
    ensures GetParam(params, "priority") == Expected(f.priority)
    ensures GetParam(params, "status") == Expected(f.status)
    ensures GetParam(params, "project") == Expected(f.project)
    ensures FiltersFromParams(params) == f
    ensures forall i :: 0 <= i < |params| ==> params[i].key in FilterKeys
    ensures forall i, j :: 0 <= i < j < |params| ==> params[i].key != params[j].key
  {
    params := [];
    params := SetIfPresent(params, "search", f.search);
    params := SetIfPresent(params, "priority", f.priority);
    params := SetIfPresent(params, "status", f.status);
    params := SetIfPresent(params, "project", f.project);
    DistinctKeysPairwise(params);
    ReadBackExpected(params, f);
  }

  // ---------------------------------------------------------------------
  // handlePriorityChange / handleStatusChange

  /** The tasks with id `taskId` take priority `p` and the time stamp `now`. */
  function WithPriority(tasks: seq<Task>, taskId: string, p: Priority, now: string): (r: seq<Task>)
    ensures |r| == |tasks|
    ensures forall i :: 0 <= i < |tasks| ==>
      r[i] == if tasks[i].id == taskId then tasks[i].(priority := p, updatedAt := now) else tasks[i]
  {
    if tasks == [] then []
    else [if tasks[0].id == taskId then tasks[0].(priority := p, updatedAt := now) else tasks[0]]
         + WithPriority(tasks[1..], taskId, p, now)
  }

  /** The tasks with id `taskId` take status `s` and the time stamp `now`. */
  function WithStatus(tasks: seq<Task>, taskId: string, s: Status, now: string): (r: seq<Task>)
    ensures |r| == |tasks|
    ensures forall i :: 0 <= i < |tasks| ==>
      r[i] == if tasks[i].id == taskId then tasks[i].(status := s, updatedAt := now) else tasks[i]
  {
    if tasks == [] then []
    else [if tasks[0].id == taskId then tasks[0].(status := s, updatedAt := now) else tasks[0]]
         + WithStatus(tasks[1..], taskId, s, now)
  }

  /** Repeating a priority change is the same as doing it once, and a
      change for an id no task carries changes nothing. */
  lemma WithPriorityIdempotent(tasks: seq<Task>, taskId: string, p: Priority, now: string)
    ensures WithPriority(WithPriority(tasks, taskId, p, now), taskId, p, now) == WithPriority(tasks, taskId, p, now)
    ensures (forall i :: 0 <= i < |tasks| ==> tasks[i].id != taskId) ==> WithPriority(tasks, taskId, p, now) == tasks
  {
  }

  /** Priority and status changes on the same task at the same instant
      commute. */
  lemma PriorityAndStatusCommute(tasks: seq<Task>, taskId: string, p: Priority, s: Status, now: string)
    ensures WithStatus(WithPriority(tasks, taskId, p, now), taskId, s, now)
         == WithPriority(WithStatus(tasks, taskId, s, now), taskId, p, now)
  {
    var a := WithStatus(WithPriority(tasks, taskId, p, now), taskId, s, now);
    var b := WithPriority(WithStatus(tasks, taskId, s, now), taskId, p, now);
    forall i | 0 <= i < |tasks|
      ensures a[i] == b[i]
    {
      var t := tasks[i];
      var withP, withS := WithPriority(tasks, taskId, p, now), WithStatus(tasks, taskId, s, now);
      if t.id == taskId {
        assert withP[i] == t.(priority := p, updatedAt := now);
        assert withS[i] == t.(status := s, updatedAt := now);
        assert a[i] == t.(priority := p, status := s, updatedAt := now);
        assert b[i] == t.(priority := p, status := s, updatedAt := now);
      } else {
        assert withP[i] == t && withS[i] == t;
      }
    }
  }

  /** The state of `TasksManagement`: the task list, the filter inputs and
      the URL search parameters. */
  class TaskManager {
    var tasks: seq<Task>
    var filters: Filters
    var searchParams: seq<Param>

    /** The initial state: the loader's tasks, the filters read from the URL. */
    constructor (initialTasks: seq<Task>, params: seq<Param>)
      ensures tasks == initialTasks && searchParams == params
      ensures filters == FiltersFromParams(params)
    {
      tasks := initialTasks;
      searchParams := params;
      filters := FiltersFromParams(params);
    }

    /** The tasks on screen. */
    function Shown(): seq<Task>
      reads this
    {
      FilteredTasks(tasks, filters)
    }

    method HandlePriorityChange(taskId: string, newPriority: Priority, now: string)
      modifies this
      ensures tasks == WithPriority(old(tasks), taskId, newPriority, now)
      ensures filters == old(filters) && searchParams == old(searchParams)
    {
      tasks := WithPriority(tasks, taskId, newPriority, now);
    }

    method HandleStatusChange(taskId: string, newStatus: Status, now: string)
      modifies this
      ensures tasks == WithStatus(old(tasks), taskId, newStatus, now)
      ensures filters == old(filters) && searchParams == old(searchParams)
    {
      tasks := WithStatus(tasks, taskId, newStatus, now);
    }

    /** Typing in the search box: only the search filter changes; the URL
        keeps its parameters until the apply button is pressed. */
    method SetSearchTerm(term: string)
      modifies this
      ensures filters == old(filters).(search := term)
      ensures tasks == old(tasks) && searchParams == old(searchParams)
    {
      filters := filters.(search := term);
    }

    /** Choosing in the priority menu (`""` is "all priorities"). */
    method SetSelectedPriority(priority: string)
      modifies this
      ensures filters == old(filters).(priority := priority)
      ensures tasks == old(tasks) && searchParams == old(searchParams)
    {
      filters := filters.(priority := priority);
    }

    /** Choosing in the status menu (`""` is "all statuses"). */
    method SetSelectedStatus(status: string)
      modifies this
      ensures filters == old(filters).(status := status)
      ensures tasks == old(tasks) && searchParams == old(searchParams)
    {
      filters := filters.(status := status);
    }

    /** Choosing in the project menu (`""` is "all projects"). */
    method SetSelectedProject(projectId: string)
      modifies this
      ensures filters == old(filters).(project := projectId)
      ensures tasks == old(tasks) && searchParams == old(searchParams)
    {
      filters := filters.(project := projectId);
    }

    /** The "apply" button: the URL is replaced by fresh parameters that
        hold the filters and nothing else, so that the effect reading them
        back leaves the filters as they were. */
    method ApplyFilters()
      modifies this
      ensures FiltersFromParams(searchParams) == filters
      ensures forall i :: 0 <= i < |searchParams| ==> searchParams[i].key in FilterKeys
      ensures forall i, j :: 0 <= i < j < |searchParams| ==> searchParams[i].key != searchParams[j].key
      ensures tasks == old(tasks) && filters == old(filters)
    {
      searchParams := UpdateFilters(filters);
    }

    /** The `useEffect` on `searchParams`, run when the URL changes. */
    method SyncFiltersFromParams()
      modifies this
      ensures filters == FiltersFromParams(searchParams)
      ensures tasks == old(tasks) && searchParams == old(searchParams)
    {
      filters := FiltersFromParams(searchParams);
    }

    /** The reset button: every filter cleared, the URL emptied, and so
        every task shown. */
    method ResetFilters()
      modifies this
      ensures filters == NoFilters && searchParams == []
      ensures tasks == old(tasks)
      ensures Shown() == tasks
    {
      filters := NoFilters;
      searchParams := [];
      NoFiltersShowsAll(tasks);
    }
  }
}
