/** The layout arithmetic of the Gantt chart in
    `app/routes/dashboard.gantt.tsx`. Dates are whole day numbers, so the
    millisecond differences divided by one day become plain subtractions. */
module Gantt {
  import opened Builtins

  datatype GanttTask = GanttTask(
    id: string,
    name: string,
    start: int,
    end: int,
    progress: int,
    dependencies: seq<string>,  // an absent `dependencies` is the empty list
    assignees: seq<string>,
    color: Option<string>)

  datatype Scale = Day | Week | Month

  /** Days of margin on either side of the tasks. */
  const Margin: int := 2

  /** Height in pixels of one task row. */
  const RowHeight: int := 50

  /** Pixels per day for each time scale. */
  function DayWidth(scale: Scale): (w: int)
    ensures w > 0
    ensures scale == Day <==> w == 40
    ensures scale == Week <==> w == 20
    ensures scale == Month <==> w == 10
  {
    match scale
    case Day => 40
    case Week => 20
    case Month => 10
  }

  // ---------------------------------------------------------------------
  // Timeline origin and end

  /** `Math.min(...tasks.map(task => task.start))`. */
  function EarliestStart(tasks: seq<GanttTask>): (r: int)
    requires tasks != []
    ensures forall i :: 0 <= i < |tasks| ==> r <= tasks[i].start
    ensures exists i :: 0 <= i < |tasks| && tasks[i].start == r
  {
    if |tasks| == 1 then tasks[0].start
    else
      var rest := EarliestStart(tasks[1..]);
      assert forall i :: 1 <= i < |tasks| ==> tasks[i] == tasks[1..][i - 1];
      if tasks[0].start <= rest then tasks[0].start else rest
  }

  /** `Math.max(...tasks.map(task => task.end))`. */
  function LatestEnd(tasks: seq<GanttTask>): (r: int)
    requires tasks != []
    ensures forall i :: 0 <= i < |tasks| ==> tasks[i].end <= r
    ensures exists i :: 0 <= i < |tasks| && tasks[i].end == r
  {
    if |tasks| == 1 then tasks[0].end
    else
      var rest := LatestEnd(tasks[1..]);
      assert forall i :: 1 <= i < |tasks| ==> tasks[i] == tasks[1..][i - 1];
      if tasks[0].end >= rest then tasks[0].end else rest
  }

  datatype Timeline = Timeline(origin: int, end: int)

  /** `startDate` and `endDate`. With no task at all, `Math.min()` is
      Infinity and the dates are invalid: `None`. */
  function TimelineOf(tasks: seq<GanttTask>): (r: Option<Timeline>)
    ensures r.None? <==> tasks == []
    ensures r.Some? ==> forall i :: 0 <= i < |tasks| ==>
      r.value.origin + Margin <= tasks[i].start && tasks[i].end <= r.value.end - Margin
    ensures r.Some? ==> exists i :: 0 <= i < |tasks| && tasks[i].start == r.value.origin + Margin
    ensures r.Some? ==> exists i :: 0 <= i < |tasks| && tasks[i].end == r.value.end - Margin
  {
    if tasks == [] then None
    else Some(Timeline(EarliestStart(tasks) - Margin, LatestEnd(tasks) + Margin))
  }

  /** `totalDays`: the chart's pixel width is `totalDays * dayWidth`, the
      pixel offset of the timeline's end day. What the bars need of it is
      stated by `TotalDaysCoversMargins`, `BarsWithinTimeline` and
      `LatestBarAtRightMargin`. */
  function TotalDays(timeline: Timeline): (days: int)
    ensures forall w :: days * w == DayOffset(timeline.end, timeline.origin, w)
  {
    timeline.end - timeline.origin
  }

  /** A timeline over tasks that each end no earlier than they start spans
      at least the two margins. */
  lemma TotalDaysCoversMargins(tasks: seq<GanttTask>)
    requires tasks != []
    requires forall i :: 0 <= i < |tasks| ==> tasks[i].start <= tasks[i].end
    ensures TotalDays(TimelineOf(tasks).value) >= 2 * Margin
  {
    var tl := TimelineOf(tasks).value;
    var i :| 0 <= i < |tasks| && tasks[i].start == tl.origin + Margin;
    assert tasks[i].end <= tl.end - Margin;
  }

  // ---------------------------------------------------------------------
  // Bars

  /** The horizontal pixel position of a day: its distance in days from the
      timeline's origin times the day width. */
  function DayOffset(day: int, origin: int, dayWidth: int): int
  {
    (day - origin) * dayWidth
  }

  datatype Bar = Bar(left: int, width: int)

  /** `GanttBar`'s `left` and `barWidth`: a task that does not end
      before it starts never gets a bar of negative width. */
  function BarOf(task: GanttTask, origin: int, dayWidth: int): (bar: Bar)
    ensures task.start <= task.end && dayWidth >= 0 ==> bar.width >= 0
  {
    Bar(DayOffset(task.start, origin, dayWidth), (task.end - task.start) * dayWidth)
  }

  /** Every bar starts at least the margin's width into the timeline and,
      when the task ends no earlier than it starts, finishes at least the
      margin's width before the timeline's pixel width `totalDays * dayWidth`. */
  lemma BarsWithinTimeline(tasks: seq<GanttTask>, scale: Scale)
    requires tasks != []
    ensures
      var tl := TimelineOf(tasks).value;
      var w := DayWidth(scale);
      forall i :: 0 <= i < |tasks| ==>
        && BarOf(tasks[i], tl.origin, w).left >= Margin * w
        && (tasks[i].start <= tasks[i].end ==>
              && BarOf(tasks[i], tl.origin, w).width >= 0
              && BarOf(tasks[i], tl.origin, w).left + BarOf(tasks[i], tl.origin, w).width
                   <= TotalDays(tl) * w - Margin * w)
  {
    var tl := TimelineOf(tasks).value;
    var w := DayWidth(scale);
    forall i | 0 <= i < |tasks|
      ensures BarOf(tasks[i], tl.origin, w).left >= Margin * w
      ensures tasks[i].start <= tasks[i].end ==>
        && BarOf(tasks[i], tl.origin, w).width >= 0
        && BarOf(tasks[i], tl.origin, w).left + BarOf(tasks[i], tl.origin, w).width <= TotalDays(tl) * w - Margin * w
    {
      BarBounds(tasks[i], tl, w);
    }
  }

  /** The earliest task's bar sits exactly at the left margin. */
  lemma EarliestBarAtLeftMargin(tasks: seq<GanttTask>, scale: Scale)
    requires tasks != []
    ensures
      var tl := TimelineOf(tasks).value;
      exists i :: 0 <= i < |tasks| && BarOf(tasks[i], tl.origin, DayWidth(scale)).left == Margin * DayWidth(scale)
  {
    var tl := TimelineOf(tasks).value;
    var w := DayWidth(scale);
    var a :| 0 <= a < |tasks| && tasks[a].start == tl.origin + Margin;
    assert tasks[a].start - tl.origin == Margin;
    assert BarOf(tasks[a], tl.origin, w).left == Margin * w;
  }

  /** The latest task's bar ends exactly at the right margin of the
      timeline's pixel width. */
  lemma LatestBarAtRightMargin(tasks: seq<GanttTask>, scale: Scale)
    requires tasks != []
    ensures
      var tl := TimelineOf(tasks).value;
      var w := DayWidth(scale);
      exists i :: 0 <= i < |tasks|
        && BarOf(tasks[i], tl.origin, w).left + BarOf(tasks[i], tl.origin, w).width == TotalDays(tl) * w - Margin * w
  {
    var tl := TimelineOf(tasks).value;
    var w := DayWidth(scale);
    var b :| 0 <= b < |tasks| && tasks[b].end == tl.end - Margin;
    BarEnds(tasks[b], tl.origin, w);
    assert tasks[b].end - tl.origin == TotalDays(tl) - Margin;
    assert (TotalDays(tl) - Margin) * w == TotalDays(tl) * w - Margin * w;
  }

  lemma BarEnds(task: GanttTask, origin: int, w: int)
    ensures BarOf(task, origin, w).left == (task.start - origin) * w
    ensures BarOf(task, origin, w).left + BarOf(task, origin, w).width == (task.end - origin) * w
  {
    assert (task.start - origin) * w + (task.end - task.start) * w == (task.end - origin) * w;
  }

  lemma BarBounds(task: GanttTask, tl: Timeline, w: int)
    requires w > 0
    requires tl.origin + Margin <= task.start && task.end <= tl.end - Margin
    ensures BarOf(task, tl.origin, w).left >= Margin * w
    ensures task.start <= task.end ==>
      && BarOf(task, tl.origin, w).width >= 0
      && BarOf(task, tl.origin, w).left + BarOf(task, tl.origin, w).width <= TotalDays(tl) * w - Margin * w
  {
    BarEnds(task, tl.origin, w);
    MulMono(Margin, task.start - tl.origin, w);
    if task.start <= task.end {
      MulMono(0, task.end - task.start, w);
      MulMono(task.end - tl.origin, TotalDays(tl) - Margin, w);
      assert (TotalDays(tl) - Margin) * w == TotalDays(tl) * w - Margin * w;
    }
  }

  lemma MulMono(a: int, b: int, w: int)
    requires a <= b && w > 0
    ensures a * w <= b * w
  {
  }

  // ---------------------------------------------------------------------
  // Dependency lines

  /** `tasks.find(t => t.id === id)`. */
  function TaskById(tasks: seq<GanttTask>, id: string): Option<GanttTask>
  {
    Find(tasks, (t: GanttTask) => t.id == id)
  }

  /** `tasks.findIndex(t => t.id === id)`, -1 when absent. */
  function IndexById(tasks: seq<GanttTask>, id: string): int
  {
    match FindIndex(tasks, (t: GanttTask) => t.id == id)
    case Some(k) => k
    case None => -1
  }

  /** `i` is the row of the first task whose id is `id`. */
  predicate FirstWithId(tasks: seq<GanttTask>, id: string, i: int)
  {
    0 <= i < |tasks| && tasks[i].id == id && forall k :: 0 <= k < i ==> tasks[k].id != id
  }

  /** The vertical middle of row `index`, where a dependency line meets a
      bar: `index * rowHeight + rowHeight / 2`. */
  function RowMiddle(index: int): (y: int)
    ensures y % RowHeight == RowHeight / 2
  {
    index * RowHeight + RowHeight / 2
  }

  datatype Line = Line(fromX: int, fromY: int, toX: int, toY: int)

  /** `DependencyLine`: the end points of the curve from the end of the
      predecessor's bar to the start of the successor's bar, each at the
      middle of its row; `None` (the component renders nothing) when either
      id is missing. */
  function DependencyLine(fromId: string, toId: string, tasks: seq<GanttTask>, origin: int, dayWidth: int): (line: Option<Line>)
    ensures line.Some? ==> line.value.fromY % RowHeight == RowHeight / 2 && line.value.toY % RowHeight == RowHeight / 2
  {
    var from := TaskById(tasks, fromId);
    var to := TaskById(tasks, toId);
    if from.None? || to.None? then None
    else
      var fromIndex := IndexById(tasks, fromId);
      var toIndex := IndexById(tasks, toId);
      Some(Line(DayOffset(from.value.end, origin, dayWidth), RowMiddle(fromIndex),
                DayOffset(to.value.start, origin, dayWidth), RowMiddle(toIndex)))
  }

  lemma FirstWithIdUnique(tasks: seq<GanttTask>, id: string, i: int, j: int)
    requires FirstWithId(tasks, id, i) && FirstWithId(tasks, id, j)
    ensures i == j
  {
  }

  /** `find` and `findIndex` by id: both succeed exactly when some task has
      the id, and then give the first such task and its row. */
  lemma LookupById(tasks: seq<GanttTask>, id: string)
    ensures TaskById(tasks, id).Some? <==> exists i :: 0 <= i < |tasks| && tasks[i].id == id
    ensures forall i :: FirstWithId(tasks, id, i) ==>
      TaskById(tasks, id) == Some(tasks[i]) && IndexById(tasks, id) == i
  {
    var p := (t: GanttTask) => t.id == id;
    FindAgreesWithFindIndex(tasks, p);
    if exists i :: 0 <= i < |tasks| && tasks[i].id == id {
      var i :| 0 <= i < |tasks| && tasks[i].id == id;
      assert p(tasks[i]);
    }
    forall i | FirstWithId(tasks, id, i)
      ensures TaskById(tasks, id) == Some(tasks[i]) && IndexById(tasks, id) == i
    {
      assert p(tasks[i]);
      FirstWithIdUnique(tasks, id, i, FindIndex(tasks, p).value);
    }
  }

  /** A line is drawn exactly when both ids name a task. */
  lemma DependencyLineDrawnIff(fromId: string, toId: string, tasks: seq<GanttTask>, origin: int, dayWidth: int)
    ensures DependencyLine(fromId, toId, tasks, origin, dayWidth).Some? <==>
      (exists i :: 0 <= i < |tasks| && tasks[i].id == fromId) && (exists j :: 0 <= j < |tasks| && tasks[j].id == toId)
  {
    LookupById(tasks, fromId);
    LookupById(tasks, toId);
  }

  /** With `i` and `j` the rows of the first tasks carrying the two ids, the
      line runs from the end day of task `i`, in the middle of its row, to
      the start day of task `j`, in the middle of its row. */
  lemma DependencyLineGeometry(fromId: string, toId: string, tasks: seq<GanttTask>, origin: int, dayWidth: int, i: int, j: int)
    requires FirstWithId(tasks, fromId, i) && FirstWithId(tasks, toId, j)
    ensures DependencyLine(fromId, toId, tasks, origin, dayWidth)
      == Some(Line(DayOffset(tasks[i].end, origin, dayWidth), RowMiddle(i), DayOffset(tasks[j].start, origin, dayWidth), RowMiddle(j)))
  {
    LookupById(tasks, fromId);
    LookupById(tasks, toId);
    assert TaskById(tasks, fromId) == Some(tasks[i]) && IndexById(tasks, fromId) == i;
    assert TaskById(tasks, toId) == Some(tasks[j]) && IndexById(tasks, toId) == j;
    var line := DependencyLine(fromId, toId, tasks, origin, dayWidth);
    assert line.Some?;
    assert line.value.fromX == DayOffset(tasks[i].end, origin, dayWidth);
    assert line.value.toX == DayOffset(tasks[j].start, origin, dayWidth);
    assert line.value.fromY == RowMiddle(i);
    assert line.value.toY == RowMiddle(j);
  }

  // ---------------------------------------------------------------------
  // Dependency edges

  datatype Edge = Edge(from: string, to: string)

  /** `task.dependencies?.map(depId => ...)`: one edge per dependency. */
  function EdgesOf(task: GanttTask): (r: seq<Edge>)
    ensures |r| == |task.dependencies|
    ensures forall k :: 0 <= k < |r| ==> r[k] == Edge(task.dependencies[k], task.id)
  {
    seq(|task.dependencies|, k requires 0 <= k < |task.dependencies| => Edge(task.dependencies[k], task.id))
  }

  /** The candidate edges, task by task, each task's in the order of its
      `dependencies` list. */
  function DependencyEdges(tasks: seq<GanttTask>): (edges: seq<Edge>)
    ensures |edges| == DependencyCount(tasks)
  {
    if tasks == [] then [] else EdgesOf(tasks[0]) + DependencyEdges(tasks[1..])
  }

  /** The number of dependency entries over all tasks. */
  function DependencyCount(tasks: seq<GanttTask>): nat
  {
    if tasks == [] then 0 else |tasks[0].dependencies| + DependencyCount(tasks[1..])
  }

  /** The edges of a concatenation are the edges of each part, in order. */
  lemma {:induction false} DependencyEdgesAppend(a: seq<GanttTask>, b: seq<GanttTask>)
    ensures DependencyEdges(a + b) == DependencyEdges(a) + DependencyEdges(b)
  {
    if a != [] {
      DependencyEdgesAppend(a[1..], b);
      assert (a + b)[0] == a[0];
      assert (a + b)[1..] == a[1..] + b;
    } else {
      assert a + b == b;
    }
  }

  /** One edge per dependency entry: every edge goes from an entry of some
      task's `dependencies` to that task, and every entry yields its edge. */
  lemma {:induction false} DependencyEdgesSpec(tasks: seq<GanttTask>)
    ensures forall e :: e in DependencyEdges(tasks) ==>
      exists i :: 0 <= i < |tasks| && e.to == tasks[i].id && e.from in tasks[i].dependencies
    ensures forall i, k :: 0 <= i < |tasks| && 0 <= k < |tasks[i].dependencies| ==>
      Edge(tasks[i].dependencies[k], tasks[i].id) in DependencyEdges(tasks)
  {
    if tasks != [] {
      DependencyEdgesSpec(tasks[1..]);
      var head := EdgesOf(tasks[0]);
      var rest := DependencyEdges(tasks[1..]);
      forall e | e in DependencyEdges(tasks)
        ensures exists i :: 0 <= i < |tasks| && e.to == tasks[i].id && e.from in tasks[i].dependencies
      {
        if e in head {
          var k :| 0 <= k < |head| && head[k] == e;
          assert e.to == tasks[0].id && e.from == tasks[0].dependencies[k];
        } else {
          assert e in rest;
          var i :| 0 <= i < |tasks[1..]| && e.to == tasks[1..][i].id && e.from in tasks[1..][i].dependencies;
          assert tasks[1..][i] == tasks[i + 1];
        }
      }
      forall i, k | 0 <= i < |tasks| && 0 <= k < |tasks[i].dependencies|
        ensures Edge(tasks[i].dependencies[k], tasks[i].id) in DependencyEdges(tasks)
      {
        if i == 0 {
          assert head[k] == Edge(tasks[i].dependencies[k], tasks[i].id);
        } else {
          assert tasks[1..][i - 1] == tasks[i];
        }
      }
    }
  }

  /** The lines actually drawn: the edges rendered through
      `DependencyLine`, which renders nothing for an edge whose ids do not
      both resolve. */
  function DrawnLines(edges: seq<Edge>, tasks: seq<GanttTask>, origin: int, dayWidth: int): (lines: seq<Line>)
    ensures |lines| <= |edges|
  {
    FilterMap(edges, (e: Edge) => DependencyLine(e.from, e.to, tasks, origin, dayWidth))
  }

  /** The edge's two ids both name a task, so its line is drawn. */
  predicate Resolves(e: Edge, tasks: seq<GanttTask>, origin: int, dayWidth: int)
  {
    DependencyLine(e.from, e.to, tasks, origin, dayWidth).Some?
  }

  /** The lines drawn are, in edge order, the lines of exactly the edges
      whose two ids resolve: a dangling dependency draws nothing and takes
      no place. */
  lemma DrawnLinesAreResolvedEdges(edges: seq<Edge>, tasks: seq<GanttTask>, origin: int, dayWidth: int)
    ensures var resolved := Filter(edges, (e: Edge) => Resolves(e, tasks, origin, dayWidth));
      && |DrawnLines(edges, tasks, origin, dayWidth)| == |resolved|
      && forall i :: 0 <= i < |resolved| ==>
           DependencyLine(resolved[i].from, resolved[i].to, tasks, origin, dayWidth)
             == Some(DrawnLines(edges, tasks, origin, dayWidth)[i])
  {
    FilterMapIsFilterThenMap(edges, (e: Edge) => DependencyLine(e.from, e.to, tasks, origin, dayWidth),
                             (e: Edge) => Resolves(e, tasks, origin, dayWidth));
  }

  /** When every dependency id resolves, there is one line per edge. */
  lemma DrawnLinesCount(edges: seq<Edge>, tasks: seq<GanttTask>, origin: int, dayWidth: int)
    requires forall k :: 0 <= k < |edges| ==> Resolves(edges[k], tasks, origin, dayWidth)
    ensures |DrawnLines(edges, tasks, origin, dayWidth)| == |edges|
  {
    DrawnLinesAreResolvedEdges(edges, tasks, origin, dayWidth);
    FilterKeepsAll(edges, (e: Edge) => Resolves(e, tasks, origin, dayWidth));
  }

  // ---------------------------------------------------------------------
  // Timeline header

  /** One step of the header: a day, a week, or (calendar-dependent) the
      same day of the next month, which `nextMonth` supplies. */
  function Advance(d: int, scale: Scale, nextMonth: int -> int): int
  {
    match scale
    case Day => d + 1
    case Week => d + 7
    case Month => nextMonth(d)
  }

  /** The header dates from `current` on, stepping until past `end`. */
  function HeaderFrom(current: int, end: int, scale: Scale, nextMonth: int -> int): (header: seq<int>)
    requires forall d :: nextMonth(d) > d
    ensures |header| > 0 <==> current <= end
    decreases end - current
  {
    if current > end then []
    else [current] + HeaderFrom(Advance(current, scale, nextMonth), end, scale, nextMonth)
  }

  /** The date after position `i` of header `h` is one step of the scale
      after it. */
  predicate StepsAt(h: seq<int>, i: int, scale: Scale, nextMonth: int -> int)
    requires 0 <= i < |h| - 1
  {
    h[i + 1] == Advance(h[i], scale, nextMonth)
  }

  /** The header from `current` on starts at `current` (when it is not past
      `end`), stays within `[current, end]`, and stops at the first step
      past `end`. */
  lemma {:induction false} HeaderBounds(current: int, end: int, scale: Scale, nextMonth: int -> int)
    requires forall d :: nextMonth(d) > d
    ensures var h := HeaderFrom(current, end, scale, nextMonth);
      && (current <= end ==> |h| > 0 && h[0] == current)
      && (forall i :: 0 <= i < |h| ==> current <= h[i] <= end)
      && (|h| > 0 ==> Advance(h[|h| - 1], scale, nextMonth) > end)
    decreases end - current
  {
    if current <= end {
      var next := Advance(current, scale, nextMonth);
      HeaderBounds(next, end, scale, nextMonth);
      var h := HeaderFrom(current, end, scale, nextMonth);
      var t := HeaderFrom(next, end, scale, nextMonth);
      assert h == [current] + t;
      assert next > current;
      forall i | 1 <= i < |h|
        ensures current <= h[i] <= end
      {
        assert h[i] == t[i - 1];
      }
    }
  }

  /** The header strictly increases, and moves by exactly one step of the
      scale from each date to the next. */
  lemma {:induction false} HeaderOrder(current: int, end: int, scale: Scale, nextMonth: int -> int)
    requires forall d :: nextMonth(d) > d
    ensures var h := HeaderFrom(current, end, scale, nextMonth);
      && (forall i, j :: 0 <= i < j < |h| ==> h[i] < h[j])
      && (forall i :: 0 <= i < |h| - 1 ==> StepsAt(h, i, scale, nextMonth))
    decreases end - current
  {
    if current <= end {
      var next := Advance(current, scale, nextMonth);
      HeaderOrder(next, end, scale, nextMonth);
      HeaderBounds(next, end, scale, nextMonth);
      var h := HeaderFrom(current, end, scale, nextMonth);
      var t := HeaderFrom(next, end, scale, nextMonth);
      assert h == [current] + t;
      assert next > current;
      forall i, j | 0 <= i < j < |h|
        ensures h[i] < h[j]
      {
        assert h[j] == t[j - 1];
        if i > 0 {
          assert h[i] == t[i - 1];
        }
      }
      forall i | 0 <= i < |h| - 1
        ensures StepsAt(h, i, scale, nextMonth)
      {
        if i == 0 {
          assert h[1] == t[0];
        } else {
          assert StepsAt(t, i - 1, scale, nextMonth);
          assert h[i] == t[i - 1] && h[i + 1] == t[i];
        }
      }
    }
  }

  /** `generateTimelineHeader`: the loop pushes exactly the header that
      `HeaderFrom` defines, whose shape `HeaderBounds` and
      `HeaderOrder` establish. */
  method GenerateTimelineHeader(origin: int, end: int, scale: Scale, nextMonth: int -> int) returns (dates: seq<int>)
    requires forall d :: nextMonth(d) > d
    ensures dates == HeaderFrom(origin, end, scale, nextMonth)
    ensures origin <= end ==> |dates| > 0 && dates[0] == origin
  {
    dates := [];
    var currentDate := origin;
    while currentDate <= end
      invariant dates + HeaderFrom(currentDate, end, scale, nextMonth) == HeaderFrom(origin, end, scale, nextMonth)
      decreases end - currentDate
    {
      var next := Advance(currentDate, scale, nextMonth);
      ghost var rest := HeaderFrom(next, end, scale, nextMonth);
      assert HeaderFrom(currentDate, end, scale, nextMonth) == [currentDate] + rest;
      assert (dates + [currentDate]) + rest == dates + ([currentDate] + rest);
      dates := dates + [currentDate];
      currentDate := next;
    }
    assert HeaderFrom(currentDate, end, scale, nextMonth) == [];
    assert dates == dates + [];
  }

  /** In day scale the header holds every day from the origin to the end,
      `end - origin + 1` of them; in week scale every seventh day. */
  lemma {:induction false} HeaderSteps(current: int, end: int, scale: Scale, nextMonth: int -> int)
    requires forall d :: nextMonth(d) > d
    requires scale != Month
    ensures var step := if scale == Day then 1 else 7;
      var h := HeaderFrom(current, end, scale, nextMonth);
      && (current <= end ==> |h| == (end - current) / step + 1)
      && forall i :: 0 <= i < |h| ==> h[i] == current + step * i
    decreases end - current
  {
    if current <= end {
      var step := if scale == Day then 1 else 7;
      HeaderSteps(current + step, end, scale, nextMonth);
      var h := HeaderFrom(current, end, scale, nextMonth);
      var t := HeaderFrom(current + step, end, scale, nextMonth);
      assert h == [current] + t;
      if current + step <= end {
        assert (end - current) / step == (end - current - step) / step + 1;
      } else {
        assert (end - current) / step == 0;
      }
      forall i | 0 < i < |h| ensures h[i] == current + step * i {
        assert h[i] == t[i - 1];
      }
    }
  }
}
