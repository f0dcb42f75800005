/** The cleaning and garbage task endpoints, written once over the task kind:
    list, create (Staff), complete (the assigned Student) and verify (Staff).
    Lifecycle: Pending -> Completed -> Verified. */
module Tasks {
  import opened Results
  import opened Model
  import opened Collections
  import opened Validators

  const TaskNotCompleted := "Task must be completed before verification"

  /** Row-level visibility: a Student sees only the tasks assigned to them,
      so never an unassigned one; Staff and Maintenance see all. */
  predicate CanSeeTask(who: Requester, t: Task)
  {
    who.role != Student || t.assignee == Some(who.id)
  }

  /** `GET /api/tasks/cleaning` and `GET /api/tasks/garbage`: the visible tasks
      of one kind, earliest due date first. Reads only. */
  function ListTasks(st: Store, who: Requester, kind: TaskKind): (r: seq<Task>)
    requires Valid(st)
    ensures forall x :: x in r <==>
      && x.id in TasksOf(st, kind).rows && TasksOf(st, kind).rows[x.id] == x
      && (who.role == Student ==> x.assignee == Some(who.id))
    ensures forall x :: x in r ==> x.kind == kind
    ensures forall i, j :: 0 <= i < j < |r| ==> r[i].dueDate <= r[j].dueDate
    ensures forall i, j :: 0 <= i < j < |r| ==> r[i].id != r[j].id
  {
    var t := TasksOf(st, kind);
    var r := SelectSorted(t.rows, t.lastId,
      (x: Task) => CanSeeTask(who, x),
      (x: Task) => x.dueDate as int,
      (x: Task) => x.id);
    assert forall i, j :: 0 <= i < j < |r| ==> r[i].id != r[j].id by {
      forall i, j | 0 <= i < j < |r| ensures r[i].id != r[j].id {
        assert r[i] in r && r[j] in r;
      }
    }
    r
  }

  /** `POST /api/tasks/{cleaning|garbage}` (Staff only): adds one Pending task
      of the requested kind; the locus is copied from `LocationOrSpace`. */
  function CreateTask(st: Store, who: Requester, now: Ticks, kind: TaskKind, req: CreateTaskRequest): (r: Result<(Store, Task)>)
    requires Valid(st)
    ensures who.role != Staff ==> r == Err(RoleMismatch)
    ensures who.role == Staff && ValidateCreateTask(req, now) != [] ==> r == Err(BadRequest(ValidateCreateTask(req, now)))
    ensures who.role == Staff && ValidateCreateTask(req, now) == [] && req.buildingId !in st.buildings ==>
      r == Err(BadRequest([BuildingNotFound]))
    ensures
      && who.role == Staff && ValidateCreateTask(req, now) == [] && req.buildingId in st.buildings
      && req.assignedUserId.Some? && req.assignedUserId.value !in st.users
      ==> r == Err(BadRequest([AssignedUserNotFound]))
    ensures r.Ok? <==>
      && who.role == Staff && ValidateCreateTask(req, now) == [] && req.buildingId in st.buildings
      && (req.assignedUserId.None? || req.assignedUserId.value in st.users)
    ensures r.Ok? ==>
      var (st', x) := r.value;
      && x.id !in TasksOf(st, kind).rows
      && TasksOf(st', kind).rows == TasksOf(st, kind).rows[x.id := x]
      && st' == WithTasks(st, kind, TasksOf(st', kind))
      && x.kind == kind && x.description == req.description && x.locus == req.locationOrSpace
      && x.status == Pending && x.buildingId == req.buildingId && x.assignee == req.assignedUserId
      && x.dueDate == req.dueDate && x.completedAt == None && x.createdAt == now
      && Valid(st')
      && (TableStamped(TasksOf(st, kind)) ==> TableStamped(TasksOf(st', kind)))
      && (Stamped(st) ==> Stamped(st'))
      && VerifiedOnlyFromCompleted(TasksOf(st, kind), TasksOf(st', kind))
  {
    if who.role != Staff then Err(RoleMismatch)
    else
      var errs := ValidateCreateTask(req, now);
      if errs != [] then Err(BadRequest(errs))
      else if req.buildingId !in st.buildings then Err(BadRequest([BuildingNotFound]))
      else if req.assignedUserId.Some? && req.assignedUserId.value !in st.users then
        Err(BadRequest([AssignedUserNotFound]))
      else
        var table := TasksOf(st, kind);
        var task := Task(NextId(table), kind, req.description, req.locationOrSpace, Pending,
                         req.buildingId, req.assignedUserId, req.dueDate, None, now);
        Ok((WithTasks(st, kind, Append(table, task)), task))
  }

  /** `POST /api/tasks/{cleaning|garbage}/{id}/complete` (Student only): the
      assignee marks the task Completed at `now`, whatever its prior status. */
  function CompleteTask(st: Store, who: Requester, now: Ticks, kind: TaskKind, id: int): (r: Result<Store>)
    ensures who.role != Student ==> r == Err(RoleMismatch)
    ensures who.role == Student && id !in TasksOf(st, kind).rows ==> r == Err(NotFound)
    ensures who.role == Student && id in TasksOf(st, kind).rows && TasksOf(st, kind).rows[id].assignee != Some(who.id) ==>
      r == Err(Forbidden)
    ensures r.Ok? <==> who.role == Student && id in TasksOf(st, kind).rows && TasksOf(st, kind).rows[id].assignee == Some(who.id)
    ensures r.Ok? ==>
      var before := TasksOf(st, kind);
      var after := TasksOf(r.value, kind);
      && after == Table(before.rows[id := before.rows[id].(status := Completed, completedAt := Some(now))], before.lastId)
      && r.value == WithTasks(st, kind, after)
      && (Valid(st) ==> Valid(r.value))
      && (TableStamped(before) ==> TableStamped(after))
      && (Stamped(st) ==> Stamped(r.value))
      && VerifiedOnlyFromCompleted(before, after)
  {
    if who.role != Student then Err(RoleMismatch)
    else
      var table := TasksOf(st, kind);
      if id !in table.rows then Err(NotFound)
      else if table.rows[id].assignee != Some(who.id) then Err(Forbidden)
      else
        var done := table.rows[id].(status := Completed, completedAt := Some(now));
        Ok(WithTasks(st, kind, Put(table, id, done)))
  }

  /** `POST /api/tasks/{cleaning|garbage}/{id}/verify` (Staff only): a Completed
      task becomes Verified; its completion time is kept. */
  function VerifyTask(st: Store, who: Requester, kind: TaskKind, id: int): (r: Result<Store>)
    ensures who.role != Staff ==> r == Err(RoleMismatch)
    ensures who.role == Staff && id !in TasksOf(st, kind).rows ==> r == Err(NotFound)
    ensures who.role == Staff && id in TasksOf(st, kind).rows && TasksOf(st, kind).rows[id].status != Completed ==>
      r == Err(BadRequest([TaskNotCompleted]))
    ensures r.Ok? <==> who.role == Staff && id in TasksOf(st, kind).rows && TasksOf(st, kind).rows[id].status == Completed
    ensures r.Ok? ==>
      var before := TasksOf(st, kind);
      var after := TasksOf(r.value, kind);
      && after == Table(before.rows[id := before.rows[id].(status := Verified)], before.lastId)
      && after.rows[id].completedAt == before.rows[id].completedAt
      && r.value == WithTasks(st, kind, after)
      && (Valid(st) ==> Valid(r.value))
      && (TableStamped(before) ==> TableStamped(after))
      && (Stamped(st) ==> Stamped(r.value))
      && VerifiedOnlyFromCompleted(before, after)
  {
    if who.role != Staff then Err(RoleMismatch)
    else
      var table := TasksOf(st, kind);
      if id !in table.rows then Err(NotFound)
      else if table.rows[id].status != Completed then Err(BadRequest([TaskNotCompleted]))
      else Ok(WithTasks(st, kind, Put(table, id, table.rows[id].(status := Verified))))
  }

  /** A Student may complete a task exactly when it appears in their own list
      of that kind. */
  lemma CompleteAllowedIffListed(st: Store, who: Requester, now: Ticks, kind: TaskKind, id: int)
    requires Valid(st) && who.role == Student
    ensures CompleteTask(st, who, now, kind, id).Ok? <==> exists x :: x in ListTasks(st, who, kind) && x.id == id
  {
    if CompleteTask(st, who, now, kind, id).Ok? {
      var x := TasksOf(st, kind).rows[id];
      assert x in ListTasks(st, who, kind);
    }
  }

  /** Completing a task and then verifying it as Staff succeeds, and the task
      ends Verified with the completion time of the first step. */
  lemma CompleteThenVerify(st: Store, student: Requester, staff: Requester, now: Ticks, kind: TaskKind, id: int)
    requires CompleteTask(st, student, now, kind, id).Ok?
    requires staff.role == Staff
    ensures var st1 := CompleteTask(st, student, now, kind, id).value;
      var r := VerifyTask(st1, staff, kind, id);
      && r.Ok?
      && TasksOf(r.value, kind).rows[id].status == Verified
      && TasksOf(r.value, kind).rows[id].completedAt == Some(now)
  {
  }

  /** Verification is forward-only: verifying the same task again is refused. */
  lemma VerifyTwiceRefused(st: Store, who: Requester, kind: TaskKind, id: int)
    requires VerifyTask(st, who, kind, id).Ok?
    ensures VerifyTask(VerifyTask(st, who, kind, id).value, who, kind, id) == Err(BadRequest([TaskNotCompleted]))
  {
  }

  /** A Pending task can never be verified directly. */
  lemma PendingCannotBeVerified(st: Store, who: Requester, kind: TaskKind, id: int)
    requires id in TasksOf(st, kind).rows && TasksOf(st, kind).rows[id].status == Pending
    ensures VerifyTask(st, who, kind, id).Err?
  {
  }

  /** Completion has no status guard: the assignee can take a Verified task
      back to Completed, restamping its completion time. */
  lemma CompleteReopensVerified(st: Store, who: Requester, now: Ticks, kind: TaskKind, id: int)
    requires who.role == Student
    requires id in TasksOf(st, kind).rows
    requires TasksOf(st, kind).rows[id].assignee == Some(who.id)
    requires TasksOf(st, kind).rows[id].status == Verified
    ensures CompleteTask(st, who, now, kind, id).Ok?
    ensures TasksOf(CompleteTask(st, who, now, kind, id).value, kind).rows[id].status == Completed
    ensures TasksOf(CompleteTask(st, who, now, kind, id).value, kind).rows[id].completedAt == Some(now)
  {
  }
}
