/** The project overview `app/routes/dashboard.projects.tsx`: the
    case-insensitive status filter and its buttons, the status badge colour,
    the member avatars cut at three with an overflow badge, and the empty
    state. */
module Projects {
  import opened Builtins

  datatype Member = Member(id: string, email: string, role: string)

  datatype TaskCount = TaskCount(total: int, completed: int)

  datatype Project = Project(
    id: string,
    name: string,
    description: string,
    status: string,
    startDate: string,
    endDate: Option<string>,
    progress: int,
    members: seq<Member>,
    tasksCount: TaskCount)

  /** The filter value that shows every project. */
  const ShowAll := "all"

  /** The statuses the loader offers, one button each. */
  const Statuses: seq<string> := ["En cours", "Planifié", "Terminé", "En attente", "Annulé"]

  /** The filter in force, compared with each project's status after both
      are lowercased. */
  predicate StatusMatches(p: Project, filter: string)
  {
    Lower(p.status) == Lower(filter)
  }

  /** `filteredProjects`: only projects of the list, and with any filter
      but "all" only those whose status matches it. */
  function FilteredProjects(projects: seq<Project>, filter: string): (shown: seq<Project>)
    ensures |shown| <= |projects|
    ensures forall i :: 0 <= i < |shown| ==> shown[i] in projects
    ensures filter != ShowAll ==> forall i :: 0 <= i < |shown| ==> Lower(shown[i].status) == Lower(filter)
  {
    if filter == ShowAll then projects
    else Filter(projects, (p: Project) => StatusMatches(p, filter))
  }

  /** With the filter at "all" the list is shown as it is. */
  lemma ShowAllKeepsEverything(projects: seq<Project>)
    ensures FilteredProjects(projects, ShowAll) == projects
  {
  }

  /** Any other filter shows, in their order, exactly the projects whose
      status equals the filter once both are lowercased. */
  lemma FilteredProjectsExactly(projects: seq<Project>, filter: string)
    requires filter != ShowAll
    ensures IsSubsequence(FilteredProjects(projects, filter), projects)
    ensures forall i :: 0 <= i < |projects| ==>
      (projects[i] in FilteredProjects(projects, filter) <==> Lower(projects[i].status) == Lower(filter))
  {
    var p := (q: Project) => StatusMatches(q, filter);
    FilterIsSubsequence(projects, p);
    var r := FilteredProjects(projects, filter);
    forall i | 0 <= i < |projects|
      ensures projects[i] in r <==> Lower(projects[i].status) == Lower(filter)
    {
      if projects[i] in r {
        var k :| 0 <= k < |r| && r[k] == projects[i];
        assert p(r[k]);
      } else {
        assert !p(projects[i]);
      }
    }
  }

  /** A project that passes the filter is shown as many times as it is
      listed. */
  lemma FilteredProjectsKeepsRepeats(projects: seq<Project>, filter: string)
    ensures forall i :: 0 <= i < |projects| && (filter == ShowAll || Lower(projects[i].status) == Lower(filter)) ==>
      multiset(FilteredProjects(projects, filter))[projects[i]] == multiset(projects)[projects[i]]
  {
    if filter != ShowAll {
      forall i | 0 <= i < |projects| {
        FilterKeepsMultiplicity(projects, (q: Project) => StatusMatches(q, filter), projects[i]);
      }
    }
  }

  // ---------------------------------------------------------------------
  // Filter buttons

  /** The filter value the button of status `s` sets, `s.toLowerCase()`:
      already in lowercase, so that the filter's own lowercasing leaves it
      unchanged, and the button it comes from is the one highlighted. */
  function ButtonFilter(s: string): (f: string)
    ensures Lower(f) == f
    ensures Highlighted(f, s)
  {
    LowerIsIdempotent(s);
    Lower(s)
  }

  /** Pressing the button of a status `s` whose lowercase form is not the
      "all" sentinel shows exactly the projects whose status equals `s`
      case-insensitively. */
  lemma StatusButtonShowsThatStatus(projects: seq<Project>, s: string)
    requires Lower(s) != ShowAll
    ensures forall i :: 0 <= i < |projects| ==>
      (projects[i] in FilteredProjects(projects, ButtonFilter(s)) <==> Lower(projects[i].status) == Lower(s))
  {
    LowerIsIdempotent(s);
    FilteredProjectsExactly(projects, ButtonFilter(s));
  }

  /** The button of status `s` is highlighted when the filter is `s`
      lowercased; the "Tous" button when it is "all". */
  predicate Highlighted(filter: string, s: string)
  {
    filter == Lower(s)
  }

  /** None of the loader's statuses lowercases to "all", and no two share a
      lowercase form: whichever button is pressed, that button alone is
      highlighted and the filter it sets is a real status filter. */
  lemma StatusButtonsAreDistinct()
    ensures forall i :: 0 <= i < |Statuses| ==> Lower(Statuses[i]) != ShowAll
    ensures forall i, j :: 0 <= i < |Statuses| && 0 <= j < |Statuses| && i != j ==>
      !Highlighted(ButtonFilter(Statuses[i]), Statuses[j])
  {
    assert Lower(Statuses[0])[0] == 'e';
    assert Lower(Statuses[1])[0] == 'p';
    assert Lower(Statuses[3])[0] == 'e';
  }

  // ---------------------------------------------------------------------
  // Status colour

  const Gray := "bg-gray-100 text-gray-800"

  /** The lowercase statuses that have a colour of their own. */
  const ColouredStatuses: seq<string> := ["en cours", "planifié", "terminé", "en attente", "annulé"]

  /** `getStatusColor`: a switch on the lowercased status. */
  function StatusColor(status: string): (colour: string)
    ensures colour == Gray <==> Lower(status) !in ColouredStatuses
  {
    var s := Lower(status);
    if s == "en cours" then "bg-blue-100 text-blue-800"
    else if s == "planifié" then "bg-purple-100 text-purple-800"
    else if s == "terminé" then "bg-green-100 text-green-800"
    else if s == "en attente" then "bg-yellow-100 text-yellow-800"
    else if s == "annulé" then "bg-red-100 text-red-800"
    else Gray
  }

  /** The colour depends on the status only through its lowercase form. */
  lemma StatusColorIgnoresCase(a: string, b: string)
    requires Lower(a) == Lower(b)
    ensures StatusColor(a) == StatusColor(b)
    ensures StatusColor(a) == StatusColor(Lower(a))
  {
    LowerIsIdempotent(a);
  }

  // ---------------------------------------------------------------------
  // Member avatars

  /** The most avatars a project card shows. */
  const MaxAvatars := 3

  /** `members.slice(0, 3)`. */
  function ShownMembers(members: seq<Member>): (shown: seq<Member>)
    ensures |shown| <= MaxAvatars
    ensures shown <= members
    ensures |members| <= MaxAvatars ==> shown == members
    ensures |members| > MaxAvatars ==> |shown| == MaxAvatars
  {
    if |members| <= MaxAvatars then members else members[..MaxAvatars]
  }

  /** The "+n" badge, present when `members.length > 3`. */
  function OverflowBadge(members: seq<Member>): (badge: Option<nat>)
    ensures badge.Some? <==> |members| > MaxAvatars
    ensures badge.Some? ==> badge.value > 0
  {
    if |members| > MaxAvatars then Some(|members| - MaxAvatars) else None
  }

  /** Avatars and badge together account for every member exactly once. */
  lemma AvatarsAccountForEveryMember(members: seq<Member>)
    ensures |ShownMembers(members)| + (match OverflowBadge(members) case Some(n) => n case None => 0) == |members|
    ensures OverflowBadge(members).Some? ==> ShownMembers(members) + members[MaxAvatars..] == members
  {
    if |members| > MaxAvatars {
      assert members[..MaxAvatars] + members[MaxAvatars..] == members;
    }
  }

  // ---------------------------------------------------------------------
  // Empty state

  /** "Aucun projet trouvé" is shown when the filtered list is empty. */
  predicate ShowsEmptyState(projects: seq<Project>, filter: string)
  {
    |FilteredProjects(projects, filter)| == 0
  }

  /** The empty state appears exactly when no project passes the filter:
      with "all" when there are no projects, otherwise when no status
      matches the filter case-insensitively. */
  lemma EmptyStateExactly(projects: seq<Project>, filter: string)
    ensures filter == ShowAll ==> (ShowsEmptyState(projects, filter) <==> projects == [])
    ensures filter != ShowAll ==>
      (ShowsEmptyState(projects, filter) <==>
         forall i :: 0 <= i < |projects| ==> Lower(projects[i].status) != Lower(filter))
  {
    if filter != ShowAll {
      FilteredProjectsExactly(projects, filter);
      var r := FilteredProjects(projects, filter);
      if |r| != 0 {
        assert r[0] in r;
        var i :| 0 <= i < |projects| && projects[i] == r[0];
      }
    }
  }
}
