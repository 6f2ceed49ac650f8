/** The priority status of provider tasks: a label that tells whether a provider task is being worked on,
    may start, or has to wait for its predecessors. */
module PriorityStatus {
  import opened Basics

  datatype Status = NotStarted | InProgress | OnHold | Completed | Cancelled | OtherStatus(text: string)
  datatype Priority = Current | Pending | Future | CompletedPriority | OtherPriority(text: string)

  /** Completed or cancelled. */
  predicate Closed(s: Status) {
    s.Completed? || s.Cancelled?
  }

  // ----- The three classification tests -----

  predicate IsCurrentTask(previous: Option<Status>, current: Status) {
    (current.OnHold? || current.InProgress?) &&
    (previous.None? || previous.value.Completed? || previous.value.Cancelled? || previous.value.InProgress?)
  }

  predicate IsPendingTask(previous: Option<Status>, isPreviousTaskCompleted: bool, current: Status) {
    current.NotStarted? &&
    (previous.None? || isPreviousTaskCompleted || previous.value.Completed? || previous.value.Cancelled?)
  }

  predicate IsFutureTask(previous: Option<Status>, current: Status) {
    current.NotStarted? && previous.Some? &&
    (previous.value.InProgress? || previous.value.OnHold? || previous.value.NotStarted?)
  }

  // ----- The declarative labelling of the tasks of one workflow -----

  /** The statuses of each task's provider tasks; `None` is a task without providerTasks. */
  type Statuses = seq<Option<seq<Status>>>

  ghost predicate Linked(ts: Statuses, t: nat)
    requires t < |ts|
  {
    t > 0 ==> ts[t - 1].Some?
  }

  predicate At(ts: Statuses, t: nat, p: nat) {
    t < |ts| && ts[t].Some? && p < |ts[t].value|
  }

  /** A task with provider tasks follows a task that has the field; the source throws otherwise. */
  ghost predicate Chained(ts: Statuses) {
    forall t: nat :: At(ts, t, 0) ==> Linked(ts, t)
  }

  /** All provider tasks of the preceding task are closed. */
  predicate PrecedingClosed(ts: Statuses, t: nat)
    requires Chained(ts) && At(ts, t, 0)
  {
    assert Linked(ts, t);
    t > 0 ==> forall s <- ts[t - 1].value :: Closed(s)
  }

  /** The provider task just before position (t, p), across the task boundary. */
  function Predecessor(ts: Statuses, t: nat, p: nat): Option<Status>
    requires Chained(ts) && At(ts, t, p)
  {
    assert At(ts, t, 0) && Linked(ts, t);
    if p > 0 then Some(ts[t].value[p - 1])
    else if t > 0 && ts[t - 1].value != [] then Some(ts[t - 1].value[|ts[t - 1].value| - 1])
    else None
  }

  /** The label that the statuses dictate for position (t, p); `None` leaves the old label. */
  function Dictated(ts: Statuses, t: nat, p: nat): Option<Priority>
    requires Chained(ts) && At(ts, t, p)
  {
    var before := Predecessor(ts, t, p);
    match ts[t].value[p]
    case NotStarted =>
      if PrecedingClosed(ts, t) || before.None? || Closed(before.value) then Some(Pending)
      else if before.value.OtherStatus? then None
      else Some(Future)
    case Completed => Some(CompletedPriority)
    case Cancelled => None
    case OtherStatus(_) => None
    case _ =>
      if before.Some? && (before.value.OnHold? || before.value.NotStarted? || before.value.OtherStatus?) then None
      else Some(Current)
  }

  function Relabelled(ts: Statuses, t: nat, p: nat, present: Option<Priority>): Option<Priority>
    requires Chained(ts) && At(ts, t, p)
  {
    var d := Dictated(ts, t, p);
    if d.Some? then d else present
  }

  // ----- The in-place labelling -----

  class ProviderTask {
    var status: Status
    var priorityStatus: Option<Priority>

    constructor (status: Status, priorityStatus: Option<Priority>)
      ensures this.status == status && this.priorityStatus == priorityStatus
    {
      this.status, this.priorityStatus := status, priorityStatus;
    }
  }

  /** The provider tasks of each task of a workflow. */
  type Tasks = seq<Option<seq<ProviderTask>>>

  ghost function Objects(ts: Tasks): set<ProviderTask> {
    set t, p | 0 <= t < |ts| && ts[t].Some? && 0 <= p < |ts[t].value| :: ts[t].value[p]
  }

  ghost function StatusesOf(pts: seq<ProviderTask>): (r: seq<Status>)
    reads pts`status
    ensures |r| == |pts| && forall p :: 0 <= p < |pts| ==> r[p] == pts[p].status
  {
    if pts == [] then [] else StatusesOf(pts[..|pts| - 1]) + [pts[|pts| - 1].status]
  }

  ghost function TaskStatuses(ts: Tasks): (r: Statuses)
    reads Objects(ts)`status
    ensures |r| == |ts|
    ensures forall t :: 0 <= t < |ts| ==> (r[t].Some? <==> ts[t].Some?)
    ensures forall t :: 0 <= t < |ts| && ts[t].Some? ==> r[t].value == StatusesOf(ts[t].value)
  {
    if ts == [] then []
    else
      assert forall p :: 0 <= p < |ts| - 1 ==> ts[..|ts| - 1][p] == ts[p];
      assert ts[|ts| - 1].Some? ==> forall p <- ts[|ts| - 1].value :: p in Objects(ts);
      TaskStatuses(ts[..|ts| - 1]) +
      [if ts[|ts| - 1].Some? then Some(StatusesOf(ts[|ts| - 1].value)) else None]
  }

  /** A decoded document holds distinct objects. */
  ghost predicate DistinctObjects(ts: Tasks) {
    forall t, p, u, q ::
      0 <= t < |ts| && ts[t].Some? && 0 <= p < |ts[t].value| && 0 <= u < |ts| && ts[u].Some? && 0 <= q < |ts[u].value|
      ==> ts[t].value[p] == ts[u].value[q] ==> t == u && p == q
  }

  /** The tests in the order of the loop body agree with the dictated label. */
  lemma TestsMatchDictated(ts: Statuses, t: nat, p: nat)
    requires Chained(ts) && At(ts, t, p)
    ensures var before, done, s, d := Predecessor(ts, t, p), PrecedingClosed(ts, t), ts[t].value[p], Dictated(ts, t, p);
            d == if s.Completed? then Some(CompletedPriority)
                 else if IsCurrentTask(before, s) then Some(Current)
                 else if IsPendingTask(before, done, s) then Some(Pending)
                 else if IsFutureTask(before, s) then Some(Future)
                 else None
  {
  }

  /** The previous provider task and the carried flag, recomputed where a new task begins. */
  method PreviousTask(ts: Tasks, ghost st: Statuses, t: nat, p: nat, carried: bool)
    returns (previous: Option<Status>, isPreviousTaskCompleted: bool)
    requires st == TaskStatuses(ts) && Chained(st) && At(st, t, p)
    requires p > 0 || t == 0 ==> carried == PrecedingClosed(st, t)
    ensures previous == Predecessor(st, t, p) && isPreviousTaskCompleted == PrecedingClosed(st, t)
  {
    previous, isPreviousTaskCompleted := None, carried;
    if t > 0 && p == 0 {
      var preceding := ts[t - 1].value;
      ghost var statuses := st[t - 1].value;
      assert forall i :: 0 <= i < |preceding| ==> statuses[i] == preceding[i].status;
      if preceding != [] {
        previous := Some(preceding[|preceding| - 1].status);
      }
      isPreviousTaskCompleted := forall i | 0 <= i < |preceding| :: Closed(preceding[i].status);
      assert isPreviousTaskCompleted == forall i :: 0 <= i < |statuses| ==> Closed(statuses[i]);
    }
    if p > 0 {
      previous := Some(ts[t].value[p - 1].status);
    }
  }

  /** The body of the innermost loop, for the provider task at position (t, p). */
  method LabelProviderTask(providerTask: ProviderTask, ts: Tasks, ghost st: Statuses, t: nat, p: nat, carried: bool)
    returns (isPreviousTaskCompleted: bool)
    requires st == TaskStatuses(ts) && Chained(st) && At(st, t, p)
    requires providerTask == ts[t].value[p]
    requires p > 0 || t == 0 ==> carried == PrecedingClosed(st, t)
    modifies providerTask`priorityStatus
    ensures providerTask.priorityStatus == Relabelled(st, t, p, old(providerTask.priorityStatus))
    ensures isPreviousTaskCompleted == PrecedingClosed(st, t)
  {
    var previous;
    previous, isPreviousTaskCompleted := PreviousTask(ts, st, t, p, carried);
    TestsMatchDictated(st, t, p);
    if IsCurrentTask(previous, providerTask.status) {
      providerTask.priorityStatus := Some(Current);
    } else if IsPendingTask(previous, isPreviousTaskCompleted, providerTask.status) {
      providerTask.priorityStatus := Some(Pending);
    } else if IsFutureTask(previous, providerTask.status) {
      providerTask.priorityStatus := Some(Future);
    }
    if providerTask.status == Completed {
      providerTask.priorityStatus := Some(CompletedPriority);
    }
  }

  /** The loop over the provider tasks of task t, with its carried flag. */
  method LabelTask(pts: seq<ProviderTask>, ts: Tasks, ghost st: Statuses, t: nat)
    requires t < |ts| && ts[t] == Some(pts)
    requires forall p, q :: 0 <= p < q < |pts| ==> pts[p] != pts[q]
    requires st == TaskStatuses(ts) && Chained(st)
    modifies pts`priorityStatus
    ensures forall p :: 0 <= p < |pts| ==> pts[p].priorityStatus == Relabelled(st, t, p, old(pts[p].priorityStatus))
  {
    hide Relabelled, Objects, TaskStatuses, StatusesOf;
    var isPreviousTaskCompleted := true;
    for p := 0 to |pts|
      invariant p > 0 || t == 0 ==> At(st, t, 0) ==> isPreviousTaskCompleted == PrecedingClosed(st, t)
      invariant forall q :: 0 <= q < p ==> pts[q].priorityStatus == Relabelled(st, t, q, old(pts[q].priorityStatus))
      invariant forall q :: p <= q < |pts| ==> pts[q].priorityStatus == old(pts[q].priorityStatus)
    {
      isPreviousTaskCompleted := LabelProviderTask(pts[p], ts, st, t, p, isPreviousTaskCompleted);
    }
  }

  lemma TaskObjectsApart(ts: Tasks, st: Statuses, t: nat)
    requires t < |ts| && ts[t].Some? && DistinctObjects(ts) && st == TaskStatuses(ts)
    ensures forall pt <- ts[t].value :: pt in Objects(ts)
    ensures forall p, q :: 0 <= p < q < |ts[t].value| ==> ts[t].value[p] != ts[t].value[q]
    ensures forall p: nat :: At(st, t, p) ==> p < |ts[t].value|
    ensures forall u: nat, p: nat :: u != t && At(st, u, p) ==>
              u < |ts| && ts[u].Some? && p < |ts[u].value| && ts[u].value[p] !in ts[t].value
  {
  }

  /** Labelling one task leaves the labels of the other tasks alone. */
  method LabelOneTask(ts: Tasks, ghost st: Statuses, t: nat)
    requires t < |ts| && ts[t].Some? && DistinctObjects(ts) && st == TaskStatuses(ts) && Chained(st)
    modifies Objects(ts)`priorityStatus
    ensures forall p: nat :: At(st, t, p) ==>
              ts[t].value[p].priorityStatus == Relabelled(st, t, p, old(ts[t].value[p].priorityStatus))
    ensures forall u: nat, p: nat :: u != t && At(st, u, p) ==>
              ts[u].value[p].priorityStatus == old(ts[u].value[p].priorityStatus)
  {
    hide *;
    TaskObjectsApart(ts, st, t);
    var pts := ts[t].value;
    LabelTask(pts, ts, st, t);
  }

  /** The loop over the tasks of one workflow. */
  method LabelWorkflow(ts: Tasks, ghost st: Statuses)
    requires DistinctObjects(ts) && st == TaskStatuses(ts) && Chained(st)
    modifies Objects(ts)`priorityStatus
    ensures TaskStatuses(ts) == st
    ensures forall t: nat, p: nat :: At(st, t, p) ==>
              ts[t].value[p].priorityStatus == Relabelled(st, t, p, old(ts[t].value[p].priorityStatus))
  {
    for t := 0 to |ts|
      invariant forall u: nat, p: nat :: u < t && At(st, u, p) ==>
                  ts[u].value[p].priorityStatus == Relabelled(st, u, p, old(ts[u].value[p].priorityStatus))
      invariant forall u: nat, p: nat :: t <= u && At(st, u, p) ==>
                  ts[u].value[p].priorityStatus == old(ts[u].value[p].priorityStatus)
    {
      if ts[t].Some? {
        LabelOneTask(ts, st, t);
      }
    }
  }

  ghost function RequestObjects(workflows: seq<Option<Tasks>>): set<ProviderTask> {
    set w, o | 0 <= w < |workflows| && workflows[w].Some? && o in Objects(workflows[w].value) :: o
  }

  function LabelsOf(pts: seq<ProviderTask>): (r: seq<Option<Priority>>)
    reads pts`priorityStatus
    ensures |r| == |pts| && forall p :: 0 <= p < |pts| ==> r[p] == pts[p].priorityStatus
  {
    if pts == [] then [] else LabelsOf(pts[..|pts| - 1]) + [pts[|pts| - 1].priorityStatus]
  }

  type Labels = seq<Option<seq<Option<Priority>>>>

  /** The labels of a workflow, by task and provider task. */
  ghost function TaskLabels(ts: Tasks): (r: Labels)
    reads Objects(ts)`priorityStatus
    ensures |r| == |ts|
    ensures forall t :: 0 <= t < |ts| ==> (r[t].Some? <==> ts[t].Some?)
    ensures forall t :: 0 <= t < |ts| && ts[t].Some? ==> r[t].value == LabelsOf(ts[t].value)
  {
    if ts == [] then []
    else
      assert forall p :: 0 <= p < |ts| - 1 ==> ts[..|ts| - 1][p] == ts[p];
      assert ts[|ts| - 1].Some? ==> forall p <- ts[|ts| - 1].value :: p in Objects(ts);
      TaskLabels(ts[..|ts| - 1]) +
      [if ts[|ts| - 1].Some? then Some(LabelsOf(ts[|ts| - 1].value)) else None]
  }

  /** Every label has become what the statuses dictate for its position. */
  ghost predicate Follows(st: Statuses, before: Labels, after: Labels)
    requires Chained(st)
  {
    && |before| == |after| == |st|
    && forall t: nat, p: nat :: At(st, t, p) ==>
         && before[t].Some? && p < |before[t].value| && after[t].Some? && p < |after[t].value|
         && after[t].value[p] == Relabelled(st, t, p, before[t].value[p])
  }

  ghost predicate SeparateWorkflows(workflows: seq<Option<Tasks>>) {
    && (forall w :: 0 <= w < |workflows| && workflows[w].Some? ==> DistinctObjects(workflows[w].value))
    && (forall v, w :: 0 <= v < w < |workflows| && workflows[v].Some? && workflows[w].Some? ==>
          Objects(workflows[v].value) !! Objects(workflows[w].value))
  }

  ghost predicate ChainedWorkflows(workflows: seq<Option<Tasks>>)
    reads RequestObjects(workflows)`status
  {
    forall w :: 0 <= w < |workflows| && workflows[w].Some? ==>
      assert forall o <- Objects(workflows[w].value) :: o in RequestObjects(workflows);
      Chained(TaskStatuses(workflows[w].value))
  }

  method LabelWorkflowLabels(ts: Tasks)
    requires DistinctObjects(ts) && Chained(TaskStatuses(ts))
    modifies Objects(ts)`priorityStatus
    ensures TaskStatuses(ts) == old(TaskStatuses(ts))
    ensures Follows(TaskStatuses(ts), old(TaskLabels(ts)), TaskLabels(ts))
  {
    hide Relabelled, Chained;
    ghost var st := TaskStatuses(ts);
    LabelWorkflow(ts, st);
  }

  /** Labelling workflow w leaves the other workflows alone. */
  method LabelOneWorkflow(workflows: seq<Option<Tasks>>, w: nat)
    requires w < |workflows| && workflows[w].Some? && SeparateWorkflows(workflows) && ChainedWorkflows(workflows)
    modifies RequestObjects(workflows)`priorityStatus
    ensures ChainedWorkflows(workflows)
    ensures Follows(TaskStatuses(workflows[w].value), old(TaskLabels(workflows[w].value)),
                    TaskLabels(workflows[w].value))
    ensures forall v :: 0 <= v < |workflows| && workflows[v].Some? ==>
              TaskStatuses(workflows[v].value) == old(TaskStatuses(workflows[v].value))
    ensures forall v :: 0 <= v < |workflows| && v != w && workflows[v].Some? ==>
              TaskLabels(workflows[v].value) == old(TaskLabels(workflows[v].value))
  {
    hide Follows, Chained;
    assert forall o <- Objects(workflows[w].value) :: o in RequestObjects(workflows);
    assert forall v :: 0 <= v < |workflows| && v != w && workflows[v].Some? ==>
                         Objects(workflows[v].value) !! Objects(workflows[w].value);
    LabelWorkflowLabels(workflows[w].value);
  }

  /** The whole labelling: every workflow that has tasks, in order. Only labels change, and each becomes
      what the statuses dictate for its position. */
  method SetProviderTasksPriorityStatus(workflows: seq<Option<Tasks>>)
    requires SeparateWorkflows(workflows) && ChainedWorkflows(workflows)
    modifies RequestObjects(workflows)`priorityStatus
    ensures ChainedWorkflows(workflows)
    ensures forall w :: 0 <= w < |workflows| && workflows[w].Some? ==>
              && TaskStatuses(workflows[w].value) == old(TaskStatuses(workflows[w].value))
              && Follows(TaskStatuses(workflows[w].value), old(TaskLabels(workflows[w].value)),
                         TaskLabels(workflows[w].value))
  {
    hide Follows, Chained, SeparateWorkflows, RequestObjects;
    for w := 0 to |workflows|
      invariant ChainedWorkflows(workflows)
      invariant forall v :: 0 <= v < |workflows| && workflows[v].Some? ==>
                  TaskStatuses(workflows[v].value) == old(TaskStatuses(workflows[v].value))
      invariant forall v :: 0 <= v < w && workflows[v].Some? ==>
                  Follows(TaskStatuses(workflows[v].value), old(TaskLabels(workflows[v].value)),
                          TaskLabels(workflows[v].value))
      invariant forall v :: w <= v < |workflows| && workflows[v].Some? ==>
                  TaskLabels(workflows[v].value) == old(TaskLabels(workflows[v].value))
    {
      if workflows[w].Some? {
        LabelOneWorkflow(workflows, w);
      }
    }
  }

  // ----- Runs: provider tasks are closed one by one, with a relabelling after each -----

  /** The statuses of a workflow and its labels by position. */
  datatype Board = Board(ts: Statuses, labels: (nat, nat) -> Option<Priority>)

  ghost function Relabel(b: Board): Board
    requires Chained(b.ts)
  {
    Board(b.ts, (t: nat, p: nat) => if At(b.ts, t, p) then Relabelled(b.ts, t, p, b.labels(t, p)) else b.labels(t, p))
  }

  /** Provider task (t, p) is completed or cancelled. */
  datatype Close = Close(t: nat, p: nat, status: Status)

  ghost predicate Enabled(ts: Statuses, c: Close) {
    At(ts, c.t, c.p) && (c.status == Completed || c.status == Cancelled)
  }

  function SetStatus(ts: Statuses, c: Close): Statuses
    requires At(ts, c.t, c.p)
  {
    ts[c.t := Some(ts[c.t].value[c.p := c.status])]
  }

  lemma SetStatusKeepsShape(ts: Statuses, c: Close)
    requires At(ts, c.t, c.p)
    ensures forall t: nat, p: nat :: At(SetStatus(ts, c), t, p) <==> At(ts, t, p)
    ensures Chained(ts) ==> Chained(SetStatus(ts, c))
  {
  }

  ghost function Apply(b: Board, c: Close): Board
    requires Chained(b.ts) && Enabled(b.ts, c)
  {
    SetStatusKeepsShape(b.ts, c);
    Relabel(b.(ts := SetStatus(b.ts, c)))
  }

  /** The positions whose label a closing can change. */
  predicate Reaches(c: Close, t: nat, p: nat) {
    t == c.t + 1 || (t == c.t && (p == c.p || p == c.p + 1))
  }

  lemma ClosingKeepsPrecedingClosed(ts: Statuses, c: Close, t: nat)
    requires Chained(ts) && Enabled(ts, c) && At(ts, t, 0)
    ensures Chained(SetStatus(ts, c)) && At(SetStatus(ts, c), t, 0)
    ensures PrecedingClosed(ts, t) ==> PrecedingClosed(SetStatus(ts, c), t)
    ensures t != c.t + 1 ==> PrecedingClosed(ts, t) == PrecedingClosed(SetStatus(ts, c), t)
  {
    SetStatusKeepsShape(ts, c);
    var ts' := SetStatus(ts, c);
    assert Linked(ts, t) && Linked(ts', t);
    if t == c.t + 1 && PrecedingClosed(ts, t) {
      forall s | s in ts'[t - 1].value ensures Closed(s) {
        var i :| 0 <= i < |ts'[t - 1].value| && ts'[t - 1].value[i] == s;
        assert i == c.p || s in ts[t - 1].value;
      }
    }
  }

  /** Closing a provider task changes what is dictated at most for itself, for the next one in its task,
      and for the provider tasks of the following task; and there it never takes back a go-ahead. */
  lemma ClosingIsLocalAndForward(ts: Statuses, c: Close, t: nat, p: nat)
    requires Chained(ts) && Enabled(ts, c) && At(ts, t, p)
    ensures Chained(SetStatus(ts, c)) && At(SetStatus(ts, c), t, p)
    ensures !Reaches(c, t, p) ==> Dictated(SetStatus(ts, c), t, p) == Dictated(ts, t, p)
    ensures var was, now := Dictated(ts, t, p), Dictated(SetStatus(ts, c), t, p);
            ts[t].value[p] == SetStatus(ts, c)[t].value[p] ==>
              (was == Some(Pending) || was == Some(Current) ==> now == was)
  {
    SetStatusKeepsShape(ts, c);
    assert At(ts, t, 0);
    ClosingKeepsPrecedingClosed(ts, c, t);
    assert Linked(ts, t) && Linked(SetStatus(ts, c), t);
  }

  ghost predicate Legal(ts: Statuses, cs: seq<Close>) {
    forall k :: 0 <= k < |cs| ==> Enabled(ts, cs[k])
  }

  lemma LegalRest(ts: Statuses, cs: seq<Close>)
    requires cs != [] && Legal(ts, cs)
    ensures Legal(SetStatus(ts, cs[0]), cs[1..])
  {
  }

  ghost function Run(b: Board, cs: seq<Close>): Board
    requires Chained(b.ts) && Legal(b.ts, cs)
    decreases cs
  {
    if cs == [] then b
    else
      SetStatusKeepsShape(b.ts, cs[0]);
      LegalRest(b.ts, cs);
      Run(Apply(b, cs[0]), cs[1..])
  }

  /** The labels are the dictated ones wherever something is dictated. */
  ghost predicate Settled(b: Board)
    requires Chained(b.ts)
  {
    forall t: nat, p: nat :: At(b.ts, t, p) ==> Relabelled(b.ts, t, p, b.labels(t, p)) == b.labels(t, p)
  }

  /** Relabelling settles the labels, so a second pass changes nothing. */
  lemma RelabelSettles(b: Board)
    requires Chained(b.ts)
    ensures Settled(Relabel(b))
  {
    forall t: nat, p: nat | At(b.ts, t, p)
      ensures Relabelled(b.ts, t, p, Relabel(b).labels(t, p)) == Relabel(b).labels(t, p)
    {
      assert Relabel(b).labels(t, p) == Relabelled(b.ts, t, p, b.labels(t, p));
    }
  }

  /** The labels by position of a workflow that has the shape of ts. */
  ghost function BoardOf(ts: Statuses, labels: Labels): Board {
    Board(ts, (t: nat, p: nat) =>
            if t < |labels| && labels[t].Some? && p < |labels[t].value| then labels[t].value[p] else None)
  }

  /** What the in-place labelling leaves is the relabelled board; labelling again changes nothing. */
  lemma FollowingLabelsSettle(ts: Statuses, before: Labels,
                              after: Labels, again: Labels,
                              t: nat, p: nat)
    requires Chained(ts) && Follows(ts, before, after) && Follows(ts, after, again) && At(ts, t, p)
    ensures BoardOf(ts, after).labels(t, p) == Relabel(BoardOf(ts, before)).labels(t, p)
    ensures BoardOf(ts, again).labels(t, p) == BoardOf(ts, after).labels(t, p)
    ensures Settled(BoardOf(ts, after))
  {
  }

  /** On settled labels a step changes labels only at the positions it reaches. */
  lemma StepIsLocal(b: Board, c: Close, t: nat, p: nat)
    requires Chained(b.ts) && Settled(b) && Enabled(b.ts, c)
    ensures !Reaches(c, t, p) ==> Apply(b, c).labels(t, p) == b.labels(t, p)
  {
  }

  lemma StepKeepsGoAhead(b: Board, c: Close, t: nat, p: nat)
    requires Chained(b.ts) && Settled(b) && Enabled(b.ts, c) && At(b.ts, t, p)
    requires SetStatus(b.ts, c)[t].value[p].NotStarted? && b.labels(t, p) == Some(Pending)
    ensures Apply(b, c).labels(t, p) == Some(Pending)
  {
  }

  lemma {:induction false} RunKeepsStatus(b: Board, cs: seq<Close>, t: nat, p: nat)
    requires Chained(b.ts) && Legal(b.ts, cs) && At(b.ts, t, p)
    ensures Chained(Run(b, cs).ts) && At(Run(b, cs).ts, t, p)
    ensures Run(b, cs).ts[t].value[p].NotStarted? ==> b.ts[t].value[p].NotStarted?
    decreases cs
  {
    if cs != [] {
      SetStatusKeepsShape(b.ts, cs[0]);
      LegalRest(b.ts, cs);
      RunKeepsStatus(Apply(b, cs[0]), cs[1..], t, p);
    }
  }

  lemma {:induction false} RunKeepsGoAhead(b: Board, cs: seq<Close>, t: nat, p: nat)
    requires Chained(b.ts) && Settled(b) && Legal(b.ts, cs) && At(b.ts, t, p) && At(Run(b, cs).ts, t, p)
    requires Run(b, cs).ts[t].value[p].NotStarted? && b.labels(t, p) == Some(Pending)
    ensures Run(b, cs).labels(t, p) == Some(Pending)
    decreases cs
  {
    if cs != [] {
      var c, b' := cs[0], Apply(b, cs[0]);
      SetStatusKeepsShape(b.ts, c);
      LegalRest(b.ts, cs);
      RunKeepsStatus(b', cs[1..], t, p);
      StepKeepsGoAhead(b, c, t, p);
      RelabelSettles(b.(ts := SetStatus(b.ts, c)));
      RunKeepsGoAhead(b', cs[1..], t, p);
    }
  }

  lemma {:induction false} RunSettled(b: Board, cs: seq<Close>)
    requires Chained(b.ts) && Settled(b) && Legal(b.ts, cs)
    ensures Chained(Run(b, cs).ts) && Settled(Run(b, cs))
    decreases cs
  {
    if cs != [] {
      SetStatusKeepsShape(b.ts, cs[0]);
      LegalRest(b.ts, cs);
      RelabelSettles(b.(ts := SetStatus(b.ts, cs[0])));
      RunSettled(Apply(b, cs[0]), cs[1..]);
    }
  }

  lemma {:induction false} RunAppend(b: Board, cs1: seq<Close>, cs2: seq<Close>)
    requires Chained(b.ts) && Legal(b.ts, cs1 + cs2)
    ensures Legal(b.ts, cs1) && Chained(Run(b, cs1).ts) && Legal(Run(b, cs1).ts, cs2)
    ensures Run(b, cs1 + cs2) == Run(Run(b, cs1), cs2)
    decreases cs1
  {
    assert forall k :: 0 <= k < |cs1| ==> cs1[k] == (cs1 + cs2)[k];
    if cs1 == [] {
      assert cs1 + cs2 == cs2;
    } else {
      assert (cs1 + cs2)[1..] == cs1[1..] + cs2;
      SetStatusKeepsShape(b.ts, cs1[0]);
      LegalRest(b.ts, cs1 + cs2);
      RunAppend(Apply(b, cs1[0]), cs1[1..], cs2);
    }
  }

  /** Over every run, a provider task that has once been offered as pending is offered as pending for as
      long as it is not started: it never goes back to future. */
  lemma PendingNeverReturnsToFuture(b: Board, cs1: seq<Close>, cs2: seq<Close>, t: nat, p: nat)
    requires Chained(b.ts) && Legal(b.ts, cs1 + cs2) && At(b.ts, t, p) && Legal(b.ts, cs1)
    requires Run(Relabel(b), cs1).labels(t, p) == Some(Pending)
    requires At(Run(Relabel(b), cs1 + cs2).ts, t, p) && Run(Relabel(b), cs1 + cs2).ts[t].value[p].NotStarted?
    ensures Run(Relabel(b), cs1 + cs2).labels(t, p) == Some(Pending)
  {
    var b0 := Relabel(b);
    RelabelSettles(b);
    RunAppend(b0, cs1, cs2);
    RunSettled(b0, cs1);
    RunKeepsStatus(b0, cs1, t, p);
    RunKeepsGoAhead(Run(b0, cs1), cs2, t, p);
  }

  // ----- What the labels mean -----

  /** The inputs: a task with provider tasks comes first, or after a task that has the field. */
  lemma ChainedExactly(ts: Statuses)
    ensures Chained(ts) <==>
            forall t :: 0 < t < |ts| && ts[t].Some? && ts[t].value != [] ==> ts[t - 1].Some?
  {
    if forall t :: 0 < t < |ts| && ts[t].Some? && ts[t].value != [] ==> ts[t - 1].Some? {
      forall t: nat | At(ts, t, 0) ensures Linked(ts, t) {
      }
    }
    if Chained(ts) {
      forall t | 0 < t < |ts| && ts[t].Some? && ts[t].value != [] ensures ts[t - 1].Some? {
        assert At(ts, t, 0) && Linked(ts, t);
      }
    }
  }

  ghost predicate KnownStatuses(ts: Statuses) {
    forall t: nat, p: nat :: At(ts, t, p) ==> !ts[t].value[p].OtherStatus?
  }

  /** Every provider task of the preceding task is completed or cancelled. */
  ghost predicate PrecedingDone(ts: Statuses, t: nat)
    requires t < |ts|
  {
    t == 0 || ts[t - 1].None? ||
    var statuses := ts[t - 1].value;
    forall i :: 0 <= i < |statuses| ==> statuses[i].Completed? || statuses[i].Cancelled?
  }

  lemma PrecedingByIndex(ts: Statuses, t: nat)
    requires Chained(ts) && At(ts, t, 0)
    ensures PrecedingClosed(ts, t) <==> PrecedingDone(ts, t)
  {
    assert Linked(ts, t);
    if t > 0 && PrecedingClosed(ts, t) {
      var statuses := ts[t - 1].value;
      forall i | 0 <= i < |statuses| ensures Closed(statuses[i]) {
        assert statuses[i] in statuses;
      }
    }
  }

  /** With the five known statuses, every provider task that is not started is either pending or future,
      and it is future exactly when a provider task of the preceding task is still open and its own
      predecessor is open; every completed one is labelled completed. */
  lemma LabelMeaning(ts: Statuses, t: nat, p: nat)
    requires Chained(ts) && At(ts, t, p) && KnownStatuses(ts)
    ensures ts[t].value[p].Completed? ==> Dictated(ts, t, p) == Some(CompletedPriority)
    ensures ts[t].value[p].NotStarted? ==> Dictated(ts, t, p) == Some(Pending) || Dictated(ts, t, p) == Some(Future)
    ensures Dictated(ts, t, p) == Some(Future) <==>
            && ts[t].value[p].NotStarted? && t > 0
            && !PrecedingDone(ts, t)
            && ts[t - 1].Some? && ts[t - 1].value != []
            && var before := if p > 0 then ts[t].value[p - 1] else ts[t - 1].value[|ts[t - 1].value| - 1];
               before != Completed && before != Cancelled
  {
    assert At(ts, t, 0) && Linked(ts, t);
    PrecedingByIndex(ts, t);
    if p > 0 {
      assert At(ts, t, p - 1);
    } else if t > 0 && ts[t - 1].value != [] {
      assert At(ts, t - 1, |ts[t - 1].value| - 1);
    }
  }

  /** The provider task at (t, p) comes first: in its task, and no provider task precedes it across the border. */
  ghost predicate ComesFirst(ts: Statuses, t: nat, p: nat)
    requires t < |ts|
  {
    p == 0 && (t == 0 || ts[t - 1].None? || ts[t - 1].value == [])
  }

  /** A provider task precedes the one at (t, p), in its task or at the end of the preceding one, in status s. */
  ghost predicate ComesAfter(ts: Statuses, t: nat, p: nat, s: Status)
    requires t < |ts| && ts[t].Some? && p < |ts[t].value|
  {
    if p > 0 then ts[t].value[p - 1] == s
    else t > 0 && ts[t - 1].Some? && ts[t - 1].value != [] && ts[t - 1].value[|ts[t - 1].value| - 1] == s
  }

  /** Current is dictated for those in progress or on hold that come first or after one that is completed,
      cancelled or in progress, and for no others; nothing is dictated for a cancelled one. */
  lemma CurrentMeaning(ts: Statuses, t: nat, p: nat)
    requires Chained(ts) && t < |ts| && ts[t].Some? && p < |ts[t].value|
    ensures At(ts, t, p)
    ensures Dictated(ts, t, p) == Some(Current) <==>
            && (ts[t].value[p] == InProgress || ts[t].value[p] == OnHold)
            && (ComesFirst(ts, t, p) || ComesAfter(ts, t, p, Completed) || ComesAfter(ts, t, p, Cancelled)
                || ComesAfter(ts, t, p, InProgress))
    ensures ts[t].value[p] == Cancelled ==> Dictated(ts, t, p) == None
  {
    assert At(ts, t, p) && At(ts, t, 0) && Linked(ts, t);
  }

  /** The label of every provider task after the labelling, for all statuses, known or not. */
  lemma LabelTable(ts: Statuses, before: Labels, after: Labels, t: nat, p: nat)
    requires Chained(ts) && Follows(ts, before, after) && t < |ts| && ts[t].Some? && p < |ts[t].value|
    ensures t < |before| && before[t].Some? && p < |before[t].value|
    ensures t < |after| && after[t].Some? && p < |after[t].value|
    ensures var was, now, s := before[t].value[p], after[t].value[p], ts[t].value[p];
            && (s == Completed ==> now == Some(CompletedPriority))
            && (s == InProgress || s == OnHold ==>
                  now == if ComesFirst(ts, t, p) || ComesAfter(ts, t, p, Completed) || ComesAfter(ts, t, p, Cancelled)
                            || ComesAfter(ts, t, p, InProgress) then Some(Current) else was)
            && (s == NotStarted ==>
                  now == if PrecedingDone(ts, t) || ComesFirst(ts, t, p) || ComesAfter(ts, t, p, Completed)
                            || ComesAfter(ts, t, p, Cancelled)
                         then Some(Pending)
                         else if ComesAfter(ts, t, p, InProgress) || ComesAfter(ts, t, p, OnHold)
                                 || ComesAfter(ts, t, p, NotStarted) then Some(Future)
                         else was)
            && (s == Cancelled || s.OtherStatus? ==> now == was)
  {
    assert At(ts, t, p) && At(ts, t, 0) && Linked(ts, t);
    PrecedingByIndex(ts, t);
  }
}
