# TaskFlow Pro route logic in Dafny

TaskFlow Pro is a Remix project-management web app. Most of its routes are
markup over fixture data. This project models the logic inside five of its
route components and proves what that logic promises:

- **Kanban board** (`app/routes/dashboard.kanban.tsx`). `Kanban.Board` is
  the board state. Its method `HandleTaskMove` moves a task from one column
  to another step by step: find both columns, find the task, splice it out,
  relabel it, push it. It is proved against the value-level definition
  `Kanban.Move`. The lemmas beside it cover the three no-op exits, the exact
  effect of a successful move, and the preservation of every task id and of
  the task count.
- **Task list** (`app/routes/dashboard.tasks.tsx`). This covers:
  - the conjunctive filter over search text, priority, status and project;
  - the de-duplicated project options;
  - the `URLSearchParams` that `updateFilters` builds with successive
    `params.set` calls (`Tasks.UpdateFilters`, a method);
  - the update-by-id maps for priority and status.

  `Tasks.TaskManager` holds the component state (`tasks`, the four filter
  strings, the URL parameters). Its handlers replace that state.
- **Gantt chart** (`app/routes/dashboard.gantt.tsx`). Dates are whole day
  numbers. The model covers:
  - the timeline origin and end (two days of margin on each side), the
    total day count, and the day width per scale;
  - the bar geometry;
  - the dependency-line lookup and its coordinates;
  - the enumeration of dependency edges;
  - the `while` loop of `generateTimelineHeader`, as a method proved against
    a recursive definition.
- **Sign-up** (`app/routes/join.tsx`). The `action` is a chain of
  early-return checks, and the first failure is reported. When every check
  passes, it creates exactly one user and opens a session. There is also the
  password-strength meter: `evaluatePasswordStrength` accumulates points
  with `+= 1`, and a caption is chosen per strength.
- **Projects** (`app/routes/dashboard.projects.tsx`). This covers:
  - the case-insensitive status filter and its buttons;
  - `getStatusColor`;
  - the member avatars, cut at three, with a "+n" badge;
  - the empty state.

`Builtins` states the JavaScript built-ins these routes use, over Dafny
sequences:

- `filter`, `find`, `findIndex`;
- `Array.from(new Set(...))`;
- `toLowerCase`;
- `includes`.

## Model

| member | source | states |
|---|---|---|
| Builtins.Filter | app/routes/dashboard.tasks.tsx:150-167 | `Array.prototype.filter`: no longer than the input; every kept element is from the input and satisfies the predicate; every input element that satisfies it is kept |
| Builtins.FilterKeepsMultiplicity | app/routes/dashboard.tasks.tsx:150-167 | `filter` keeps every occurrence: a value that satisfies the predicate occurs in the result exactly as often as in the input, and the result holds no value more often than the input |
| Builtins.FindIndex | app/routes/dashboard.kanban.tsx:241-248 | `findIndex`: the index of the first element satisfying the predicate, or none (JavaScript's -1) exactly when no element does |
| Builtins.Find | app/routes/dashboard.gantt.tsx:160-161 | `find`: a found element is from the list and satisfies the predicate; nothing is found exactly when no element satisfies it |
| Builtins.FindAgreesWithFindIndex | app/routes/dashboard.gantt.tsx:160-166 | `find` and `findIndex` with the same predicate agree: both find something or neither does, and `find` returns the element at the index `findIndex` reports |
| Builtins.FilterIsSubsequence | app/routes/dashboard.tasks.tsx:150 | a filtered list is an order-preserving subsequence of its input |
| Builtins.FilterKeepsAll | app/routes/dashboard.tasks.tsx:150-167 | filtering with a predicate every element satisfies returns the input unchanged |
| Builtins.FilterMap | app/routes/dashboard.gantt.tsx:423-434 | mapping each element to an optional value and dropping the empty ones (rendering `null` draws nothing) never yields more values than elements |
| Builtins.FilterMapIsFilterThenMap | app/routes/dashboard.gantt.tsx:423-434 | dropping the empty results equals filtering the elements whose result is present and then taking the results: equal lengths, and the i-th value is the result of the i-th kept element |
| Builtins.Unique | app/routes/dashboard.tasks.tsx:133 | `Array.from(new Set(xs))`: pairwise distinct; every element is from `xs`; every element of `xs` appears |
| Builtins.UniqueKeepsFirstOrder | app/routes/dashboard.tasks.tsx:133 | the distinct values come in the order of their first occurrence in `xs`, the insertion order in which a `Set` iterates |
| Builtins.Lower | app/routes/dashboard.projects.tsx:116 | `toLowerCase`: the same length; no capital is left (ASCII or Latin-1, except the multiplication sign); every character that is not a capital is kept; a capital becomes its small letter |
| Builtins.LowerIsIdempotent | app/routes/dashboard.projects.tsx:162 | lowercasing twice is lowercasing once |
| Builtins.Contains | app/routes/dashboard.tasks.tsx:152-153 | `includes`: the empty string occurs in every string, and a string longer than the haystack occurs in none |
| Kanban.RemoveAt | app/routes/dashboard.kanban.tsx:251 | `splice(k, 1)`: one element shorter; the elements before `k` stay; the ones after shift down by one |
| Kanban.DistinctIdsDistinctIndices | app/routes/dashboard.kanban.tsx:241-242 | two different column ids that both resolve do so at different indices |
| Kanban.Move | app/routes/dashboard.kanban.tsx:233-264 | the board after a drop, with the same number of columns; its exits, its effect and what it preserves are `MoveNoOp`, `MoveSucceeds`, `MoveKeepsColumns` and `MovePreservesTasks` |
| Kanban.MoveNoOp | app/routes/dashboard.kanban.tsx:234-248 | each early exit leaves the board as it was: the same column twice, an unknown source or destination column, or a task absent from the source |
| Kanban.MoveSucceeds | app/routes/dashboard.kanban.tsx:233-264 | otherwise: the source loses exactly the first task with that id; the task is appended to the destination with the destination's name as status and its former length as position; every other column is untouched |
| Kanban.MoveKeepsColumns | app/routes/dashboard.kanban.tsx:233-264 | a move never adds, drops or reorders columns, and never changes a column's id, name, position or colour |
| Kanban.AllTaskIdsCount | app/routes/dashboard.kanban.tsx:8-20 | the flattened id list of a board has one entry per task |
| Kanban.MovePreservesTasks | app/routes/dashboard.kanban.tsx:250-260 | the multiset of task ids on the board and the total number of tasks are the same after any call |
| Kanban.Board.constructor | app/routes/dashboard.kanban.tsx:225 | the board state starts as the loader's board |
| Kanban.Board.HandleTaskMove | app/routes/dashboard.kanban.tsx:233-264 | the new columns are `Move` of the old ones; the board's id and name do not change |
| Tasks.FilteredTasks | app/routes/dashboard.tasks.tsx:149-167 | `filteredTasks`: never longer than the list; every shown task is from the list and passes every filter that is set (the converse is `FilteredTasksExactly`) |
| Tasks.FilteredTasksIsSubsequence | app/routes/dashboard.tasks.tsx:149-167 | the shown tasks keep the list's order and come from it, and a task that passes appears as many times as it is listed |
| Tasks.FilteredTasksExactly | app/routes/dashboard.tasks.tsx:152-166 | a listed task is shown iff: (a) a non-empty search term, lowercased, occurs in the lowercased title or the lowercased non-null description; (b) a non-empty priority filter equals its priority; (c) the same for status; (d) the same for project id |
| Tasks.NoFiltersShowsAll | app/routes/dashboard.tasks.tsx:152-166 | with every filter empty, the whole list is shown |
| Tasks.ProjectOptions | app/routes/dashboard.tasks.tsx:133-139 | `projects`: the options have pairwise distinct ids |
| Tasks.ProjectOptionsDistinctAndComplete | app/routes/dashboard.tasks.tsx:133 | the project options have distinct ids, and every task's project id has one |
| Tasks.ProjectOptionNamedAfterFirstTask | app/routes/dashboard.tasks.tsx:133-139 | every option is the project id of some task, and is named after the first task with that id |
| Tasks.ProjectOptionsInFirstAppearanceOrder | app/routes/dashboard.tasks.tsx:133-139 | the options come in the order in which their project ids first appear in the task list, which is the order of the drop-down |
| Tasks.GetParam | app/routes/dashboard.tasks.tsx:142-146 | `URLSearchParams.get`: a value is found exactly when some pair has the key, and then it is the value of the first pair with that key |
| Tasks.RemoveKey | app/routes/dashboard.tasks.tsx:173-176 | the pairs with the key go: no pair with it is left, the other keys stay, and distinct keys stay distinct |
| Tasks.SetParam | app/routes/dashboard.tasks.tsx:173-176 | `URLSearchParams.set`: the keys afterwards are the old keys plus the one set, and distinct keys stay distinct |
| Tasks.GetAfterRemoveKey | app/routes/dashboard.tasks.tsx:173-176 | after removing a key, `get` finds nothing for it and the same value for every other key |
| Tasks.GetAfterSet | app/routes/dashboard.tasks.tsx:173-176 | `URLSearchParams.set`: afterwards `get` returns the new value for that key and the old result for every other key |
| Tasks.FiltersFromParams | app/routes/dashboard.tasks.tsx:142-147 | the filters read from the URL: for each of the four keys, the filter is `""` when no parameter has the key and otherwise the value of the first parameter with it; a non-empty filter is a parameter of the URL |
| Tasks.SetIfPresent | app/routes/dashboard.tasks.tsx:173-176 | one `if (value) params.set(key, value)`: with a non-empty value the key reads as that value, otherwise as before; every other filter key reads as before; the keys stay among the four filter keys, each at most once |
| Tasks.UpdateFilters | app/routes/dashboard.tasks.tsx:170-179 | `params` starts empty, so it holds only the keys `search`, `priority`, `status`, `project`, each at most once; each is present exactly when its filter string is non-empty, and then holds that string; reading each parameter back, with `""` for an absent one, gives back the filters |
| Tasks.WithPriority | app/routes/dashboard.tasks.tsx:182-190 | same length and order; a task whose id matches gets the new priority and the given `updatedAt`, and nothing else about it changes; every other task is unchanged |
| Tasks.WithStatus | app/routes/dashboard.tasks.tsx:193-201 | the same for status |
| Tasks.WithPriorityIdempotent | app/routes/dashboard.tasks.tsx:182-190 | setting the same priority twice equals setting it once; an id no task has changes nothing |
| Tasks.PriorityAndStatusCommute | app/routes/dashboard.tasks.tsx:182-201 | a priority change and a status change on the same task give the same list in either order |
| Tasks.TaskManager.constructor | app/routes/dashboard.tasks.tsx:125-130 | the state starts with the loader's tasks; the filters are read from the URL parameters, `""` where absent |
| Tasks.TaskManager.HandlePriorityChange | app/routes/dashboard.tasks.tsx:182-190 | `tasks` becomes `WithPriority` of the old tasks; filters and URL unchanged |
| Tasks.TaskManager.HandleStatusChange | app/routes/dashboard.tasks.tsx:193-201 | `tasks` becomes `WithStatus` of the old tasks; filters and URL unchanged |
| Tasks.TaskManager.SetSearchTerm | app/routes/dashboard.tasks.tsx:244 | typing in the search box sets the search filter and nothing else; tasks and URL unchanged |
| Tasks.TaskManager.SetSelectedPriority | app/routes/dashboard.tasks.tsx:254 | the priority menu sets the priority filter and nothing else; tasks and URL unchanged |
| Tasks.TaskManager.SetSelectedStatus | app/routes/dashboard.tasks.tsx:269 | the status menu sets the status filter and nothing else; tasks and URL unchanged |
| Tasks.TaskManager.SetSelectedProject | app/routes/dashboard.tasks.tsx:284 | the project menu sets the project filter and nothing else; tasks and URL unchanged |
| Tasks.TaskManager.ApplyFilters | app/routes/dashboard.tasks.tsx:170-179 | the URL is replaced by parameters that hold only the four filter keys, each at most once, and read back as the current filters; tasks and filters unchanged |
| Tasks.TaskManager.SyncFiltersFromParams | app/routes/dashboard.tasks.tsx:142-147 | the filters are re-read from the URL parameters; tasks and URL unchanged |
| Tasks.TaskManager.ResetFilters | app/routes/dashboard.tasks.tsx:297-303 | every filter is empty and the URL has no parameters, so every task is shown again |
| Gantt.DayWidth | app/routes/dashboard.gantt.tsx:216 | the day width is positive: 40 exactly for the day scale, 20 exactly for week, 10 exactly for month |
| Gantt.EarliestStart | app/routes/dashboard.gantt.tsx:205 | `Math.min` of the start days: no task starts earlier, and some task starts then |
| Gantt.LatestEnd | app/routes/dashboard.gantt.tsx:206 | `Math.max` of the end days: no task ends later, and some task ends then |
| Gantt.TimelineOf | app/routes/dashboard.gantt.tsx:205-210 | no timeline exactly for an empty task list; otherwise the origin is two days before the earliest start and the end two days after the latest end |
| Gantt.TotalDaysCoversMargins | app/routes/dashboard.gantt.tsx:213 | when every task starts no later than it ends, the timeline spans at least the two margins |
| Gantt.BarOf | app/routes/dashboard.gantt.tsx:114-122 | `left` and `barWidth` of a bar: a task that does not end before it starts has a bar of non-negative width; its edges and bounds are `BarEnds`, `BarBounds` and `BarsWithinTimeline` |
| Gantt.BarsWithinTimeline | app/routes/dashboard.gantt.tsx:118-122 | every bar's left edge is at least two day widths in; a task that starts no later than it ends has its bar inside the timeline's pixel width `totalDays * dayWidth` |
| Gantt.EarliestBarAtLeftMargin | app/routes/dashboard.gantt.tsx:205-209 | the earliest task's bar starts exactly at the left margin, two day widths in |
| Gantt.LatestBarAtRightMargin | app/routes/dashboard.gantt.tsx:206-213 | the latest task's bar ends exactly two day widths before the timeline's pixel width |
| Gantt.BarEnds | app/routes/dashboard.gantt.tsx:118-122 | a bar's left edge is its start's day offset times the day width, and its right edge is its end's |
| Gantt.BarBounds | app/routes/dashboard.gantt.tsx:118-122 | a task inside the timeline's margins has a bar that starts after the left margin and ends before the right margin |
| Gantt.FirstWithIdUnique | app/routes/dashboard.gantt.tsx:165-166 | there is only one first task with a given id |
| Gantt.LookupById | app/routes/dashboard.gantt.tsx:160-166 | `find` and `findIndex` by id both succeed exactly when some task has the id, and then give the first such task and its row |
| Gantt.DependencyLine | app/routes/dashboard.gantt.tsx:160-178 | each end of a drawn line sits at the vertical middle of a row (`RowMiddle`, `y % RowHeight == RowHeight / 2`); when it is drawn and where are `DependencyLineDrawnIff` and `DependencyLineGeometry` |
| Gantt.RowMiddle | app/routes/dashboard.gantt.tsx:177-178 | the vertical middle of a row of height `RowHeight` (50) lies half a row (25) into that row |
| Gantt.DependencyLineDrawnIff | app/routes/dashboard.gantt.tsx:160-163 | a dependency line is drawn exactly when both ids name a task |
| Gantt.DependencyLineGeometry | app/routes/dashboard.gantt.tsx:165-178 | the line runs from the predecessor's end day to the successor's start day, each at `RowMiddle` of the row of the first task with that id |
| Gantt.DependencyEdges | app/routes/dashboard.gantt.tsx:423-434 | one candidate edge per entry of the tasks' `dependencies` lists, so as many edges as entries |
| Gantt.DependencyEdgesAppend | app/routes/dashboard.gantt.tsx:423-434 | edges of concatenated task lists are the concatenated edges |
| Gantt.DependencyEdgesSpec | app/routes/dashboard.gantt.tsx:423-434 | every edge comes from an entry of some task's `dependencies` and goes to that task, and every entry yields its edge |
| Gantt.DrawnLines | app/routes/dashboard.gantt.tsx:423-434 | every edge is rendered through `DependencyLine` and the `null`s draw nothing, so never more lines than edges |
| Gantt.DrawnLinesAreResolvedEdges | app/routes/dashboard.gantt.tsx:423-434 | the lines drawn are, in order, `DependencyLine` of exactly the edges whose two ids resolve: as many lines as such edges, the i-th line that of the i-th such edge |
| Gantt.DrawnLinesCount | app/routes/dashboard.gantt.tsx:160-163 | when every dependency id resolves, one line per edge |
| Gantt.HeaderFrom | app/routes/dashboard.gantt.tsx:240-252 | the header from a date, stepping until past `end`: empty exactly when the date is past `end`; its shape is `HeaderBounds`, `HeaderOrder` and `HeaderSteps` |
| Gantt.HeaderBounds | app/routes/dashboard.gantt.tsx:240-252 | the header starts at the origin; every date lies in `[origin, end]`; one step past the last date lies beyond `end` |
| Gantt.HeaderOrder | app/routes/dashboard.gantt.tsx:242-252 | the header dates strictly increase, and each is exactly one step of the scale after the previous one |
| Gantt.GenerateTimelineHeader | app/routes/dashboard.gantt.tsx:238-255 | the `while` loop pushes exactly the header defined from the origin by stepping until past `end`, so it has the properties of `HeaderBounds` and `HeaderOrder`; it starts with the origin when the timeline is not empty |
| Gantt.HeaderSteps | app/routes/dashboard.gantt.tsx:245-248 | on the day and week scales the header has `(end - origin) / step + 1` dates, the i-th being `origin + step * i` |
| Join.Validate | app/routes/join.tsx:26-53 | the early-return checks of `action`: accepted credentials have an e-mail that `validateEmail` accepts, a password of at least 8 characters and an unregistered address (which rule rejects is `ValidateReportsFirstFailure`) |
| Join.FirstFailure | app/routes/join.tsx:26-53 | no failure exactly when every rule holds; otherwise the report of a failing rule that every earlier rule passes |
| Join.ValidateReportsFirstFailure | app/routes/join.tsx:20-68 | the action's check chain reports exactly the first rule that fails, in the order: e-mail valid, password present, password at least 8 characters, address not registered; when none fails it accepts the submitted strings |
| Join.AcceptedExactly | app/routes/join.tsx:26-53 | a submission passes exactly when: the e-mail is a string that `validateEmail` accepts; the password is a string of at least 8 characters; the address is not registered |
| Join.RejectionNamesOneField | app/routes/join.tsx:26-53 | every rejection sets exactly one of the two error fields and leaves the other `null`; an invalid e-mail is always reported as such, whatever the password |
| Join.UserStore.GetUserByEmail | app/routes/join.tsx:47 | `getUserByEmail` finds a user exactly when the address is registered, and that user has the address |
| Join.UserStore.CreateUser | app/routes/join.tsx:57-60 | `createUser` appends one user with the new id and the given address |
| Join.UserStore.constructor | app/routes/join.tsx:10 | the store starts with the given users |
| Join.Action | app/routes/join.tsx:20-68 | on a rejection: a 400 carrying the first failure's errors, with the users unchanged. On acceptance: exactly one new user, plus a session for that user's id with the sanitised `redirectTo` and `remember` false |
| Join.Strength | app/routes/join.tsx:81-88 | the number of criteria the password meets, at most four |
| Join.StrengthIsSumOfPoints | app/routes/join.tsx:81-88 | the strength (the number of criteria met) is one point each for: length of at least 8, an uppercase letter, a digit, a character outside `[A-Za-z0-9]` |
| Join.EvaluatePasswordStrength | app/routes/join.tsx:81-88 | the `+= 1` accumulation computes exactly that strength, between 0 and 4 |
| Join.StrengthGrowsWithTyping | app/routes/join.tsx:81-88 | appending characters to a password never lowers its strength |
| Join.StrengthLabel | app/routes/join.tsx:173-177 | the caption is the prompt exactly for strength 0, and for a non-negative strength "Très fort" exactly from 4 on |
| Join.StrengthLabels | app/routes/join.tsx:173-177 | the five strengths have five different captions, and "Très fort" is shown exactly when all four criteria are met |
| Projects.FilteredProjects | app/routes/dashboard.projects.tsx:114-116 | `filteredProjects`: never longer than the list; every shown project is from the list and, with any filter but "all", has a status equal to the filter case-insensitively |
| Projects.ShowAllKeepsEverything | app/routes/dashboard.projects.tsx:114-115 | with the filter at "all" the project list is shown as it is |
| Projects.FilteredProjectsExactly | app/routes/dashboard.projects.tsx:116 | any other filter shows an order-preserving subsequence holding exactly the projects whose lowercased status equals the lowercased filter |
| Projects.FilteredProjectsKeepsRepeats | app/routes/dashboard.projects.tsx:114-116 | a project that passes the filter is shown as many times as it is listed |
| Projects.ButtonFilter | app/routes/dashboard.projects.tsx:158-162 | a status button's filter value is already lowercase, so the filter's own lowercasing leaves it as it is, and it highlights the button it came from |
| Projects.StatusButtonShowsThatStatus | app/routes/dashboard.projects.tsx:158-162 | pressing the button of a status whose lowercase form is not "all" shows exactly the projects with that status, case-insensitively |
| Projects.StatusButtonsAreDistinct | app/routes/dashboard.projects.tsx:152-166 | no loader status lowercases to "all", and pressing one status button never highlights another |
| Projects.StatusColor | app/routes/dashboard.projects.tsx:119-128 | the gray default is returned exactly for a status whose lowercase form is none of the five known ones |
| Projects.StatusColorIgnoresCase | app/routes/dashboard.projects.tsx:120 | the colour depends on the status only through its lowercase form |
| Projects.ShownMembers | app/routes/dashboard.projects.tsx:207 | at most 3 avatars; they are a prefix of the members; all members when there are at most 3; exactly 3 otherwise |
| Projects.OverflowBadge | app/routes/dashboard.projects.tsx:216-220 | the "+n" badge is present exactly when there are more than 3 members, and then n is positive |
| Projects.AvatarsAccountForEveryMember | app/routes/dashboard.projects.tsx:207-220 | avatars plus the badge's count equal the number of members, and avatars followed by the hidden members are the whole list |
| Projects.EmptyStateExactly | app/routes/dashboard.projects.tsx:241 | the empty state appears exactly when no project passes the filter: with "all" when there are no projects, otherwise when no status matches case-insensitively |

## Left out

- `app/models/user.server.ts` is not part of this model. `getUserByEmail`
  is a lookup in `Join.UserStore`; `createUser` appends a user. Its id is a
  parameter of `Join.Action`. Password hashing and the database are not
  modelled.
- `validateEmail` and `safeRedirect` live in a helper module that is not
  part of this model. `validateEmail` is a caller-supplied predicate on
  strings; a missing field or an uploaded file counts as invalid.
  `redirectTo` arrives already sanitised.
- Sessions and cookies (`createUserSession`, `requireUserId`, `getUserId`),
  the loaders and the redirects are not modelled. A session is the
  `SessionCreated` reply.
- Join.EvaluatePasswordStrength: `password.length` in JavaScript counts
  UTF-16 code units, and the model counts characters. The two differ only
  for characters outside the Basic Multilingual Plane. The same holds for
  the 8-character rule of the action.
- Builtins.Lower folds only ASCII and the Latin-1 capitals. Other Unicode
  case mappings of `toLowerCase` are not modelled.
- Dates are whole day numbers. This leaves out date parsing, time zones,
  daylight saving, the millisecond division with `Math.floor`/`Math.ceil`,
  and `toLocaleDateString`.
- Gantt.GenerateTimelineHeader: the month step `setMonth(getMonth() + 1)`
  depends on the calendar. It is a caller-supplied function that always
  moves forward, and nothing more is assumed of it.
- The week label formula of the Gantt header (dashboard.gantt.tsx:264) is
  calendar-dependent and not modelled.
- Gantt.TimelineOf: an empty task list gives `Math.min()` of nothing, an
  invalid date in the source. The model returns no timeline instead.
- Tasks.WithPriority / Tasks.WithStatus: `new Date().toISOString()` is
  passed in as `now`.
- The SVG path of a dependency line (its midpoint and curve) is not
  modelled. Neither is anything else outside the line's end points.
- JSX rendering and the Tailwind class strings are not modelled, with one
  exception: the project status colour. This leaves out:
  - the priority colour switches in the kanban and task routes;
  - the strength bar widths;
  - the avatar initial (`charAt(0).toUpperCase()`);
  - the focus effect on the first errored field in `join.tsx`.
- react-dnd drag-and-drop wiring, `useEffect` scheduling, window resizing,
  `containerWidth` and the dropdown toggles are not modelled. The kanban
  deep copy (`JSON.parse(JSON.stringify(...))`) is implicit, because the
  model works on values.
- `app/routes/_index.tsx` and `app/routes/dashboard.tsx` are static
  markup over a fixed project list and are not modelled.
- The fixture data of each route's loader is not modelled. The only
  exception is the list of project statuses, which the filter buttons use.
