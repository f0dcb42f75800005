/** The issue endpoints: list, get, create (Student) and partial update (Staff). */
module Issues {
  import opened Results
  import opened Model
  import opened Collections
  import opened Validators

  /** Row-level visibility: a Student sees only the issues they reported;
      Staff and Maintenance see every issue. */
  predicate CanSeeIssue(who: Requester, i: Issue)
  {
    who.role != Student || i.createdBy == who.id
  }

  /** The optional query filters; a missing or empty status filters nothing. */
  predicate MatchesIssueFilters(i: Issue, status: Option<string>, building: Option<int>)
  {
    && (status.None? || status.value == "" || i.status == status.value)
    && (building.None? || i.buildingId == building.value)
  }

  /** `GET /api/issues?status=&buildingId=`: the visible issues passing the
      filters, newest first. Reads only. */
  function ListIssues(st: Store, who: Requester, status: Option<string>, building: Option<int>): (r: seq<Issue>)
    requires Valid(st)
    ensures forall x :: x in r <==>
      && x.id in st.issues.rows && st.issues.rows[x.id] == x
      && (who.role == Student ==> x.createdBy == who.id)
      && (status.Some? && status.value != "" ==> x.status == status.value)
      && (building.Some? ==> x.buildingId == building.value)
    ensures forall i, j :: 0 <= i < j < |r| ==> r[i].createdAt >= r[j].createdAt
    ensures forall i, j :: 0 <= i < j < |r| ==> r[i].id != r[j].id
  {
    var r := SelectSorted(st.issues.rows, st.issues.lastId,
      (i: Issue) => CanSeeIssue(who, i) && MatchesIssueFilters(i, status, building),
      (i: Issue) => -(i.createdAt as int),
      (i: Issue) => i.id);
    assert forall i, j :: 0 <= i < j < |r| ==> r[i].id != r[j].id by {
      forall i, j | 0 <= i < j < |r| ensures r[i].id != r[j].id {
        assert r[i] in r && r[j] in r;
      }
    }
    r
  }

  /** `GET /api/issues/{id}`: existence is checked before ownership. */
  function GetIssue(st: Store, who: Requester, id: int): (r: Result<Issue>)
    ensures id !in st.issues.rows ==> r == Err(NotFound)
    ensures id in st.issues.rows && who.role == Student && st.issues.rows[id].createdBy != who.id ==>
      r == Err(Forbidden)
    ensures r.Ok? <==> id in st.issues.rows && (who.role != Student || st.issues.rows[id].createdBy == who.id)
    ensures r.Ok? ==> r.value == st.issues.rows[id]
  {
    if id !in st.issues.rows then Err(NotFound)
    else if !CanSeeIssue(who, st.issues.rows[id]) then Err(Forbidden)
    else Ok(st.issues.rows[id])
  }

  /** `POST /api/issues` (Student only): files a new Open issue under a fresh id. */
  function CreateIssue(st: Store, who: Requester, now: Ticks, req: CreateIssueRequest): (r: Result<(Store, Issue)>)
    requires Valid(st)
    ensures who.role != Student ==> r == Err(RoleMismatch)
    ensures who.role == Student && ValidateCreateIssue(req) != [] ==> r == Err(BadRequest(ValidateCreateIssue(req)))
    ensures who.role == Student && ValidateCreateIssue(req) == [] && req.buildingId !in st.buildings ==>
      r == Err(BadRequest([BuildingNotFound]))
    ensures r.Ok? <==> who.role == Student && ValidateCreateIssue(req) == [] && req.buildingId in st.buildings
    ensures r.Ok? ==>
      var (st', x) := r.value;
      && x.id !in st.issues.rows
      && st'.issues.rows == st.issues.rows[x.id := x]
      && st' == st.(issues := st'.issues)
      && x.description == req.description && x.sharedSpace == req.sharedSpace
      && x.photoProof == req.photoProof && x.buildingId == req.buildingId
      && x.status == "Open" && x.createdBy == who.id && x.assignedTo == None
      && x.createdAt == now && x.updatedAt == None
      && Valid(st')
  {
    if who.role != Student then Err(RoleMismatch)
    else
      var errs := ValidateCreateIssue(req);
      if errs != [] then Err(BadRequest(errs))
      else if req.buildingId !in st.buildings then Err(BadRequest([BuildingNotFound]))
      else
        var id := NextId(st.issues);
        var issue := Issue(id, req.description, req.sharedSpace, req.photoProof, "Open",
                           who.id, req.buildingId, None, now, None);
        Ok((st.(issues := Append(st.issues, issue)), issue))
  }

  /** `PATCH /api/issues/{id}` (Staff only): applies whichever of status and
      assignee are supplied and stamps `UpdatedAt`, even when nothing is supplied.
      An unknown assignee aborts the whole request, status included. */
  function UpdateIssue(st: Store, who: Requester, now: Ticks, id: int, req: UpdateIssueRequest): (r: Result<(Store, Issue)>)
    ensures who.role != Staff ==> r == Err(RoleMismatch)
    ensures who.role == Staff && ValidateUpdateIssue(req) != [] ==> r == Err(BadRequest(ValidateUpdateIssue(req)))
    ensures who.role == Staff && ValidateUpdateIssue(req) == [] && id !in st.issues.rows ==> r == Err(NotFound)
    ensures
      && who.role == Staff && ValidateUpdateIssue(req) == [] && id in st.issues.rows
      && req.assignedTo.Some? && req.assignedTo.value !in st.users
      ==> r == Err(BadRequest([AssignedUserNotFound]))
    ensures r.Ok? <==>
      && who.role == Staff && ValidateUpdateIssue(req) == [] && id in st.issues.rows
      && (req.assignedTo.None? || req.assignedTo.value in st.users)
    ensures r.Ok? ==>
      var (st', x) := r.value;
      var before := st.issues.rows[id];
      && st'.issues == Table(st.issues.rows[id := x], st.issues.lastId)
      && st' == st.(issues := st'.issues)
      && x.status == (if req.status.Some? then req.status.value else before.status)
      && x.assignedTo == (if req.assignedTo.Some? then req.assignedTo else before.assignedTo)
      && x.updatedAt == Some(now)
      && x == before.(status := x.status, assignedTo := x.assignedTo, updatedAt := x.updatedAt)
      && (Valid(st) ==> Valid(st'))
  {
    if who.role != Staff then Err(RoleMismatch)
    else
      var errs := ValidateUpdateIssue(req);
      if errs != [] then Err(BadRequest(errs))
      else if id !in st.issues.rows then Err(NotFound)
      else
        var before := st.issues.rows[id];
        var withStatus := if req.status.Some? then before.(status := req.status.value) else before;
        if req.assignedTo.Some? && req.assignedTo.value !in st.users then Err(BadRequest([AssignedUserNotFound]))
        else
          var withAssignee := if req.assignedTo.Some? then withStatus.(assignedTo := req.assignedTo) else withStatus;
          var after := withAssignee.(updatedAt := Some(now));
          Ok((st.(issues := Put(st.issues, id, after)), after))
  }

  /** Get and list agree: an issue is in the caller's unfiltered list exactly
      when fetching it by id succeeds with that same issue. */
  lemma GetAgreesWithList(st: Store, who: Requester, x: Issue)
    requires Valid(st)
    ensures x in ListIssues(st, who, None, None) <==> GetIssue(st, who, x.id) == Ok(x)
  {
  }

  /** A missing or empty status filter filters nothing. */
  lemma EmptyStatusFilterFiltersNothing(st: Store, who: Requester, building: Option<int>, x: Issue)
    requires Valid(st)
    ensures x in ListIssues(st, who, Some(""), building) <==> x in ListIssues(st, who, None, building)
  {
  }

  /** The status and building filters combine by logical AND. */
  lemma FiltersCombineByAnd(st: Store, who: Requester, status: string, building: int, x: Issue)
    requires Valid(st)
    ensures x in ListIssues(st, who, Some(status), Some(building)) <==>
      x in ListIssues(st, who, Some(status), None) && x in ListIssues(st, who, None, Some(building))
  {
  }

  /** Round trip: the issue a Student files is fetched back unchanged by its
      reporter and by any non-Student, and shows up in the reporter's list. */
  lemma CreateThenGet(st: Store, who: Requester, now: Ticks, req: CreateIssueRequest, other: Requester)
    requires Valid(st)
    requires CreateIssue(st, who, now, req).Ok?
    requires other.role != Student
    ensures var (st', x) := CreateIssue(st, who, now, req).value;
      && GetIssue(st', who, x.id) == Ok(x)
      && GetIssue(st', other, x.id) == Ok(x)
      && x in ListIssues(st', who, None, None)
      && x.status == "Open" && x.updatedAt == None && x.assignedTo == None
  {
  }

  /** Filing an issue and then setting its status as Staff: the reporter sees
      the new status and an `UpdatedAt` stamp. */
  lemma CreateUpdateGet(st: Store, student: Requester, staff: Requester, t0: Ticks, t1: Ticks,
                        req: CreateIssueRequest, status: string)
    requires Valid(st)
    requires student.role == Student && staff.role == Staff
    requires ValidateCreateIssue(req) == [] && req.buildingId in st.buildings
    requires status in IssueStatuses
    ensures var (st1, x) := CreateIssue(st, student, t0, req).value;
      var r := UpdateIssue(st1, staff, t1, x.id, UpdateIssueRequest(Some(status), None));
      && r.Ok?
      && GetIssue(r.value.0, student, x.id) == Ok(r.value.1)
      && r.value.1.status == status && r.value.1.updatedAt == Some(t1)
      && r.value.1.createdBy == student.id && r.value.1.description == req.description
  {
    var (st1, x) := CreateIssue(st, student, t0, req).value;
    assert ValidateUpdateIssue(UpdateIssueRequest(Some(status), None)) == [];
  }

  /** An update never clears an assignment: there is no way to send "unassign". */
  lemma UpdateNeverClearsAssignment(st: Store, who: Requester, now: Ticks, id: int, req: UpdateIssueRequest)
    requires UpdateIssue(st, who, now, id, req).Ok?
    requires st.issues.rows[id].assignedTo.Some?
    ensures UpdateIssue(st, who, now, id, req).value.1.assignedTo.Some?
  {
  }

  /** Update is not idempotent: repeating an empty update at a later instant
      changes the stored issue again, and only in `UpdatedAt`. */
  lemma EmptyUpdateRestamps(st: Store, who: Requester, t0: Ticks, t1: Ticks, id: int)
    requires UpdateIssue(st, who, t0, id, UpdateIssueRequest(None, None)).Ok?
    requires t0 != t1
    ensures var (st1, x1) := UpdateIssue(st, who, t0, id, UpdateIssueRequest(None, None)).value;
      var r := UpdateIssue(st1, who, t1, id, UpdateIssueRequest(None, None));
      && r.Ok? && r.value.0 != st1
      && r.value.1 == x1.(updatedAt := Some(t1))
      && x1 == st.issues.rows[id].(updatedAt := Some(t0))
  {
    var (st1, x1) := UpdateIssue(st, who, t0, id, UpdateIssueRequest(None, None)).value;
    var st2 := UpdateIssue(st1, who, t1, id, UpdateIssueRequest(None, None)).value.0;
    assert st2.issues.rows[id].updatedAt != st1.issues.rows[id].updatedAt;
  }

  /** Composed with its validator, neither create nor update ever stores a
      status outside Open, InProgress, Resolved, Closed. */
  lemma StatusesStayKnown(st: Store, who: Requester, now: Ticks, id: int, creq: CreateIssueRequest, ureq: UpdateIssueRequest)
    requires Valid(st) && IssueStatusesKnown(st)
    ensures CreateIssue(st, who, now, creq).Ok? ==> IssueStatusesKnown(CreateIssue(st, who, now, creq).value.0)
    ensures UpdateIssue(st, who, now, id, ureq).Ok? ==> IssueStatusesKnown(UpdateIssue(st, who, now, id, ureq).value.0)
  {
  }
}
