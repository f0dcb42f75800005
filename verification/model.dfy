/** The entities the controllers read and write, the store that holds them,
    and the invariants every endpoint keeps. */
module Model {
  import opened Results

  /** The three roles a JWT can carry. */
  datatype Role = Student | Staff | Maintenance

  /** The authenticated caller: the user id and role taken from the token's claims. */
  datatype Requester = Requester(id: int, role: Role)

  /** Instants are `DateTime` ticks (100 ns units since 0001-01-01), never negative. */
  type Ticks = nat

  const TicksPerDay: nat := 864_000_000_000

  /** `DateTime.Date`: midnight of the day that contains `now`. */
  function StartOfDay(now: Ticks): (today: Ticks)
    ensures today <= now < today + TicksPerDay
    ensures today % TicksPerDay == 0
  {
    var q := now / TicksPerDay;
    assert q * TicksPerDay + now % TicksPerDay == now;
    q * TicksPerDay
  }

  /** The reasons a handler gives when a referenced row does not exist. */
  const BuildingNotFound := "Building not found"
  const AssignedUserNotFound := "Assigned user not found"

  /** The four status strings the update validator admits for an issue. */
  const IssueStatuses: set<string> := {"Open", "InProgress", "Resolved", "Closed"}

  /** A reported problem in a building. `status` is a free string in the store:
      the handlers write whatever the validator let through. */
  datatype Issue = Issue(
    id: int,
    description: string,
    sharedSpace: Option<string>,
    photoProof: Option<string>,
    status: string,
    createdBy: int,
    buildingId: int,
    assignedTo: Option<int>,
    createdAt: Ticks,
    updatedAt: Option<Ticks>)

  /** Cleaning and garbage tasks share one shape; the locus is `SharedSpace`
      for a cleaning task and `Location` for a garbage task. */
  datatype TaskKind = Cleaning | Garbage

  datatype TaskStatus = Pending | Completed | Verified

  datatype Task = Task(
    id: int,
    kind: TaskKind,
    description: string,
    locus: string,
    status: TaskStatus,
    buildingId: int,
    assignee: Option<int>,
    dueDate: Ticks,
    completedAt: Option<Ticks>,
    createdAt: Ticks)

  /** One table: rows by primary key, and the AUTOINCREMENT counter, the
      largest id ever handed out. */
  datatype Table<V> = Table(rows: map<int, V>, lastId: nat)

  /** The whole database as one value. Buildings and users only matter
      through which ids exist. */
  datatype Store = Store(
    buildings: set<int>,
    users: set<int>,
    issues: Table<Issue>,
    cleaning: Table<Task>,
    garbage: Table<Task>)

  /** The id the next insert into `t` receives. */
  function NextId<V>(t: Table<V>): (id: int)
    ensures IdsBounded(t) ==> id !in t.rows && forall k :: k in t.rows ==> k < id
  {
    t.lastId + 1
  }

  /** Inserts `v` under `NextId(t)` and advances the counter. */
  function Append<V>(t: Table<V>, v: V): (t': Table<V>)
    ensures t'.rows.Keys == t.rows.Keys + {NextId(t)}
    ensures t'.rows[NextId(t)] == v
    ensures forall k :: k in t.rows && k != NextId(t) ==> t'.rows[k] == t.rows[k]
  {
    Table(t.rows[t.lastId + 1 := v], t.lastId + 1)
  }

  /** Saves a changed row under an existing key. */
  function Put<V>(t: Table<V>, k: int, v: V): (t': Table<V>)
    requires k in t.rows
    ensures t'.rows.Keys == t.rows.Keys && t'.lastId == t.lastId
    ensures t'.rows[k] == v
    ensures forall j :: j in t.rows && j != k ==> t'.rows[j] == t.rows[j]
  {
    Table(t.rows[k := v], t.lastId)
  }

  function TasksOf(st: Store, kind: TaskKind): Table<Task>
  {
    match kind
    case Cleaning => st.cleaning
    case Garbage => st.garbage
  }

  /** Replaces the table of one task kind and nothing else. */
  function WithTasks(st: Store, kind: TaskKind, t: Table<Task>): (st': Store)
    ensures TasksOf(st', kind) == t
    ensures forall other :: other != kind ==> TasksOf(st', other) == TasksOf(st, other)
    ensures st'.buildings == st.buildings && st'.users == st.users && st'.issues == st.issues
  {
    match kind
    case Cleaning => st.(cleaning := t)
    case Garbage => st.(garbage := t)
  }

  /** Every key lies in 1..lastId, as AUTOINCREMENT guarantees. */
  predicate IdsBounded<V>(t: Table<V>)
  {
    forall k :: k in t.rows ==> 1 <= k <= t.lastId
  }

  predicate IssueTableValid(t: Table<Issue>)
  {
    IdsBounded(t) && forall k :: k in t.rows ==> t.rows[k].id == k
  }

  predicate TaskTableValid(t: Table<Task>, kind: TaskKind)
  {
    && IdsBounded(t)
    && forall k :: k in t.rows ==> t.rows[k].id == k && t.rows[k].kind == kind
  }

  /** The structural store invariant: ids come from the counters and every
      row is stored under its own id, in the table of its kind. */
  predicate Valid(st: Store)
  {
    && IssueTableValid(st.issues)
    && TaskTableValid(st.cleaning, Cleaning)
    && TaskTableValid(st.garbage, Garbage)
  }

  /** `CompletedAt` is set exactly when the task has left Pending. */
  predicate CompletionStamped(t: Task)
  {
    t.completedAt.Some? <==> t.status != Pending
  }

  predicate TableStamped(t: Table<Task>)
  {
    forall k :: k in t.rows ==> CompletionStamped(t.rows[k])
  }

  predicate Stamped(st: Store)
  {
    TableStamped(st.cleaning) && TableStamped(st.garbage)
  }

  /** Between two versions of a task table, a row that is Verified afterwards
      was already Completed or Verified before: Verified is entered only from
      Completed, never from Pending and never at creation. */
  predicate VerifiedOnlyFromCompleted(before: Table<Task>, after: Table<Task>)
  {
    forall k :: k in after.rows && after.rows[k].status == Verified ==>
      k in before.rows && before.rows[k].status != Pending
  }

  /** Every stored issue status is one of the four admitted strings. */
  predicate IssueStatusesKnown(st: Store)
  {
    forall k :: k in st.issues.rows ==> st.issues.rows[k].status in IssueStatuses
  }
}
