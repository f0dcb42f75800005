/** The request validators that run before each handler. Every rule is
    checked and every failing rule contributes its message, in rule order;
    a request is admitted exactly when the message list is empty. */
module Validators {
  import opened Results
  import opened Model

  /** Body of `POST /api/issues`. */
  datatype CreateIssueRequest = CreateIssueRequest(
    description: string,
    sharedSpace: Option<string>,
    photoProof: Option<string>,
    buildingId: int)

  /** Body of `PATCH /api/issues/{id}`; an absent field means "leave as is". */
  datatype UpdateIssueRequest = UpdateIssueRequest(
    status: Option<string>,
    assignedTo: Option<int>)

  /** Body of `POST /api/tasks/cleaning` and `POST /api/tasks/garbage`. */
  datatype CreateTaskRequest = CreateTaskRequest(
    description: string,
    locationOrSpace: string,
    buildingId: int,
    assignedUserId: Option<int>,
    dueDate: Ticks)

  const DescriptionRequired := "Description is required"
  const IssueDescriptionTooLong := "Description must not exceed 1000 characters"
  const SharedSpaceTooLong := "SharedSpace must not exceed 200 characters"
  const BuildingIdRequired := "Valid BuildingId is required"
  const StatusNotAllowed := "Status must be one of: Open, InProgress, Resolved, Closed"
  const AssigneeNotPositive := "AssignedToUserId must be greater than 0 when provided"
  const TaskDescriptionTooLong := "Description must not exceed 500 characters"
  const LocusRequired := "Location or Space is required"
  const LocusTooLong := "Location or Space must not exceed 200 characters"
  const DueDateNotFuture := "Due date must be in the future"

  /** `char.IsWhiteSpace`: the Unicode space, line and paragraph separators,
      the controls U+0009..U+000D, and U+0085. */
  predicate IsWhiteSpace(c: char)
  {
    || c == ' ' || ('\t' <= c <= '\r') || c == '\U{0085}' || c == '\U{00A0}' || c == '\U{1680}'
    || ('\U{2000}' <= c <= '\U{200A}') || c == '\U{2028}' || c == '\U{2029}' || c == '\U{202F}'
    || c == '\U{205F}' || c == '\U{3000}'
  }

  /** `string.IsNullOrWhiteSpace`: the rule `NotEmpty` rejects exactly these strings. */
  predicate IsBlank(s: string)
  {
    forall i :: 0 <= i < |s| ==> IsWhiteSpace(s[i])
  }

  /** The message `msg` if `failed`, nothing otherwise. */
  function Rule(failed: bool, msg: string): (r: seq<string>)
  {
    if failed then [msg] else []
  }

  function ValidateCreateIssue(req: CreateIssueRequest): (errs: seq<string>)
    ensures DescriptionRequired in errs <==> IsBlank(req.description)
    ensures IssueDescriptionTooLong in errs <==> |req.description| > 1000
    ensures SharedSpaceTooLong in errs <==> req.sharedSpace.Some? && |req.sharedSpace.value| > 200
    ensures BuildingIdRequired in errs <==> req.buildingId <= 0
    ensures errs == [] <==>
      && (exists i :: 0 <= i < |req.description| && !IsWhiteSpace(req.description[i]))
      && |req.description| <= 1000
      && (req.sharedSpace.None? || |req.sharedSpace.value| <= 200)
      && req.buildingId > 0
  {
    Rule(IsBlank(req.description), DescriptionRequired)
    + Rule(|req.description| > 1000, IssueDescriptionTooLong)
    + Rule(req.sharedSpace.Some? && |req.sharedSpace.value| > 200, SharedSpaceTooLong)
    + Rule(req.buildingId <= 0, BuildingIdRequired)
  }

  function ValidateUpdateIssue(req: UpdateIssueRequest): (errs: seq<string>)
    ensures StatusNotAllowed in errs <==> req.status.Some? && req.status.value !in IssueStatuses
    ensures AssigneeNotPositive in errs <==> req.assignedTo.Some? && req.assignedTo.value <= 0
    ensures errs == [] <==>
      && (req.status.None? || req.status.value in IssueStatuses)
      && (req.assignedTo.None? || req.assignedTo.value > 0)
  {
    Rule(req.status.Some? && req.status.value !in IssueStatuses, StatusNotAllowed)
    + Rule(req.assignedTo.Some? && req.assignedTo.value <= 0, AssigneeNotPositive)
  }

  /** The due date is compared with the instant `now` at which the request is validated. */
  function ValidateCreateTask(req: CreateTaskRequest, now: Ticks): (errs: seq<string>)
    ensures DescriptionRequired in errs <==> IsBlank(req.description)
    ensures TaskDescriptionTooLong in errs <==> |req.description| > 500
    ensures LocusRequired in errs <==> IsBlank(req.locationOrSpace)
    ensures LocusTooLong in errs <==> |req.locationOrSpace| > 200
    ensures BuildingIdRequired in errs <==> req.buildingId <= 0
    ensures DueDateNotFuture in errs <==> req.dueDate <= now
    ensures errs == [] <==>
      && (exists i :: 0 <= i < |req.description| && !IsWhiteSpace(req.description[i]))
      && |req.description| <= 500
      && (exists i :: 0 <= i < |req.locationOrSpace| && !IsWhiteSpace(req.locationOrSpace[i]))
      && |req.locationOrSpace| <= 200
      && req.buildingId > 0
      && now < req.dueDate
  {
    Rule(IsBlank(req.description), DescriptionRequired)
    + Rule(|req.description| > 500, TaskDescriptionTooLong)
    + Rule(IsBlank(req.locationOrSpace), LocusRequired)
    + Rule(|req.locationOrSpace| > 200, LocusTooLong)
    + Rule(req.buildingId <= 0, BuildingIdRequired)
    + Rule(req.dueDate <= now, DueDateNotFuture)
  }
}
