/** `GET /api/dashboard` (Staff only): the issue status histogram and the
    overdue / due-today counts of Pending tasks, summed over both task kinds. */
module Dashboard {
  import opened Results
  import opened Model
  import opened Collections
  import opened Validators
  import opened Tasks

  datatype Summary = Summary(
    openIssues: nat,
    inProgressIssues: nat,
    resolvedIssues: nat,
    closedIssues: nat,
    overdueTasks: nat,
    tasksDueToday: nat)

  /** The keys of the issues whose status is exactly `status`. */
  function IssuesWith(t: Table<Issue>, status: string): set<int>
  {
    set k | k in t.rows && t.rows[k].status == status
  }

  /** The keys of the Pending tasks due strictly before `now`. */
  function OverdueIn(t: Table<Task>, now: Ticks): set<int>
  {
    set k | k in t.rows && t.rows[k].status == Pending && t.rows[k].dueDate < now
  }

  /** The keys of the Pending tasks due in `[today, tomorrow)`. */
  function DueIn(t: Table<Task>, today: Ticks, tomorrow: Ticks): set<int>
  {
    set k | k in t.rows && t.rows[k].status == Pending && today <= t.rows[k].dueDate < tomorrow
  }

  /** SQL `COUNT(*) WHERE Status = status` over the issues table. */
  function CountIssues(t: Table<Issue>, status: string): (n: nat)
    requires IdsBounded(t)
    ensures n == |IssuesWith(t, status)|
  {
    var keep := (i: Issue) => i.status == status;
    var n := CountWhere(t.rows, t.lastId, keep);
    assert Selected(t.rows, t.lastId, keep) == IssuesWith(t, status);
    n
  }

  /** SQL `COUNT(*) WHERE Status = 'Pending' AND DueDate < now` over one task table. */
  function CountOverdue(t: Table<Task>, now: Ticks): (n: nat)
    requires IdsBounded(t)
    ensures n == |OverdueIn(t, now)|
  {
    var keep := (x: Task) => x.status == Pending && x.dueDate < now;
    var n := CountWhere(t.rows, t.lastId, keep);
    assert Selected(t.rows, t.lastId, keep) == OverdueIn(t, now);
    n
  }

  /** SQL `COUNT(*) WHERE Status = 'Pending' AND DueDate >= today AND DueDate < tomorrow`. */
  function CountDue(t: Table<Task>, today: Ticks, tomorrow: Ticks): (n: nat)
    requires IdsBounded(t)
    ensures n == |DueIn(t, today, tomorrow)|
  {
    var keep := (x: Task) => x.status == Pending && today <= x.dueDate < tomorrow;
    var n := CountWhere(t.rows, t.lastId, keep);
    assert Selected(t.rows, t.lastId, keep) == DueIn(t, today, tomorrow);
    n
  }

  /** The dashboard at instant `now`; "today" is the UTC day containing `now`. */
  function GetDashboard(st: Store, who: Requester, now: Ticks): (r: Result<Summary>)
    requires Valid(st)
    ensures who.role != Staff ==> r == Err(RoleMismatch)
    ensures r.Ok? <==> who.role == Staff
    ensures r.Ok? ==>
      var today := StartOfDay(now);
      && r.value.openIssues == |IssuesWith(st.issues, "Open")|
      && r.value.inProgressIssues == |IssuesWith(st.issues, "InProgress")|
      && r.value.resolvedIssues == |IssuesWith(st.issues, "Resolved")|
      && r.value.closedIssues == |IssuesWith(st.issues, "Closed")|
      && r.value.overdueTasks == |OverdueIn(st.cleaning, now)| + |OverdueIn(st.garbage, now)|
      && r.value.tasksDueToday ==
           |DueIn(st.cleaning, today, today + TicksPerDay)| + |DueIn(st.garbage, today, today + TicksPerDay)|
  {
    if who.role != Staff then Err(RoleMismatch)
    else
      var today := StartOfDay(now);
      var tomorrow := today + TicksPerDay;
      Ok(Summary(
        CountIssues(st.issues, "Open"),
        CountIssues(st.issues, "InProgress"),
        CountIssues(st.issues, "Resolved"),
        CountIssues(st.issues, "Closed"),
        CountOverdue(st.cleaning, now) + CountOverdue(st.garbage, now),
        CountDue(st.cleaning, today, tomorrow) + CountDue(st.garbage, today, tomorrow)))
  }

  /** The four issue counts never exceed the number of issues, and add up to
      it exactly when every stored status is one of the four known values. */
  lemma IssueCountsAddUp(st: Store, who: Requester, now: Ticks)
    requires Valid(st) && who.role == Staff
    ensures var s := GetDashboard(st, who, now).value;
      s.openIssues + s.inProgressIssues + s.resolvedIssues + s.closedIssues <= |st.issues.rows|
    ensures IssueStatusesKnown(st) ==>
      var s := GetDashboard(st, who, now).value;
      s.openIssues + s.inProgressIssues + s.resolvedIssues + s.closedIssues == |st.issues.rows|
  {
    var t := st.issues;
    var o, p, r, c := IssuesWith(t, "Open"), IssuesWith(t, "InProgress"), IssuesWith(t, "Resolved"), IssuesWith(t, "Closed");
    assert o !! p && o !! r && o !! c && p !! r && p !! c && r !! c;
    var all := o + p + r + c;
    assert |all| == |o| + |p| + |r| + |c|;
    assert all <= t.rows.Keys;
    SubsetCard(all, t.rows.Keys);
    assert |t.rows.Keys| == |t.rows|;
    if IssueStatusesKnown(st) {
      forall k | k in t.rows ensures k in all {
        assert t.rows[k].status in IssueStatuses;
      }
      assert all == t.rows.Keys;
    }
  }

  /** Issue counts read only the issues table; task counts read only the task tables. */
  lemma DashboardReadsItsOwnTables(st1: Store, st2: Store, who: Requester, now: Ticks)
    requires Valid(st1) && Valid(st2) && who.role == Staff
    ensures st1.issues.rows == st2.issues.rows ==>
      var (a, b) := (GetDashboard(st1, who, now).value, GetDashboard(st2, who, now).value);
      a.openIssues == b.openIssues && a.inProgressIssues == b.inProgressIssues
      && a.resolvedIssues == b.resolvedIssues && a.closedIssues == b.closedIssues
    ensures st1.cleaning.rows == st2.cleaning.rows && st1.garbage.rows == st2.garbage.rows ==>
      var (a, b) := (GetDashboard(st1, who, now).value, GetDashboard(st2, who, now).value);
      a.overdueTasks == b.overdueTasks && a.tasksDueToday == b.tasksDueToday
  {
  }

  /** Completing a task takes it out of Pending (or leaves it out), so neither
      task count can grow. */
  lemma CompleteNeverRaisesTaskCounts(st: Store, student: Requester, staff: Requester, now: Ticks, at: Ticks,
                                      kind: TaskKind, id: int)
    requires Valid(st) && staff.role == Staff
    requires CompleteTask(st, student, now, kind, id).Ok?
    ensures var st' := CompleteTask(st, student, now, kind, id).value;
      && GetDashboard(st', staff, at).value.overdueTasks <= GetDashboard(st, staff, at).value.overdueTasks
      && GetDashboard(st', staff, at).value.tasksDueToday <= GetDashboard(st, staff, at).value.tasksDueToday
  {
    var st' := CompleteTask(st, student, now, kind, id).value;
    var today := StartOfDay(at);
    var before, after := TasksOf(st, kind), TasksOf(st', kind);
    assert OverdueIn(after, at) == OverdueIn(before, at) - {id};
    assert DueIn(after, today, today + TicksPerDay) == DueIn(before, today, today + TicksPerDay) - {id};
    SubsetCard(OverdueIn(after, at), OverdueIn(before, at));
    SubsetCard(DueIn(after, today, today + TicksPerDay), DueIn(before, today, today + TicksPerDay));
    assert OverdueIn(st'.cleaning, at) <= OverdueIn(st.cleaning, at);
  }

  /** Verifying moves a task between two non-Pending statuses: both task counts stay put. */
  lemma VerifyKeepsTaskCounts(st: Store, staff: Requester, now: Ticks, kind: TaskKind, id: int)
    requires Valid(st)
    requires VerifyTask(st, staff, kind, id).Ok?
    ensures var st' := VerifyTask(st, staff, kind, id).value;
      && GetDashboard(st', staff, now).value.overdueTasks == GetDashboard(st, staff, now).value.overdueTasks
      && GetDashboard(st', staff, now).value.tasksDueToday == GetDashboard(st, staff, now).value.tasksDueToday
  {
    var st' := VerifyTask(st, staff, kind, id).value;
    var today := StartOfDay(now);
    var before, after := TasksOf(st, kind), TasksOf(st', kind);
    assert OverdueIn(after, now) == OverdueIn(before, now);
    assert DueIn(after, today, today + TicksPerDay) == DueIn(before, today, today + TicksPerDay);
  }

  /** A task created at `now` is due strictly later (its validator demands it),
      so the overdue sets, and hence the dashboard's overdue count, at `now`
      are unchanged by it. */
  lemma CreatedTaskNotOverdue(st: Store, who: Requester, now: Ticks, kind: TaskKind, req: CreateTaskRequest)
    requires Valid(st)
    requires CreateTask(st, who, now, kind, req).Ok?
    ensures var st' := CreateTask(st, who, now, kind, req).value.0;
      && OverdueIn(st'.cleaning, now) == OverdueIn(st.cleaning, now)
      && OverdueIn(st'.garbage, now) == OverdueIn(st.garbage, now)
    ensures var st' := CreateTask(st, who, now, kind, req).value.0;
      who.role == Staff ==>
      GetDashboard(st', who, now).value.overdueTasks == GetDashboard(st, who, now).value.overdueTasks
  {
    var (st', x) := CreateTask(st, who, now, kind, req).value;
    assert now < x.dueDate;
    assert OverdueIn(TasksOf(st', kind), now) == OverdueIn(TasksOf(st, kind), now);
  }

  /** A task cannot be created already overdue, but one created at `now` that
      is still Pending once its due date has passed is counted as overdue. */
  lemma CreatedTaskLaterOverdue(st: Store, who: Requester, now: Ticks, at: Ticks, kind: TaskKind, req: CreateTaskRequest)
    requires Valid(st)
    requires CreateTask(st, who, now, kind, req).Ok?
    requires req.dueDate < at
    ensures now < at
    ensures GetDashboard(CreateTask(st, who, now, kind, req).value.0, who, at).value.overdueTasks >= 1
  {
    var (st', x) := CreateTask(st, who, now, kind, req).value;
    assert x.id in OverdueIn(TasksOf(st', kind), at);
  }
}
