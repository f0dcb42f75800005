# Student housing API: controller decision logic in Dafny

This project models the decision logic of the StudentHousingAPI REST controllers.
Students report issues about their building, and staff triage and assign them.
Cleaning and garbage tasks are created by staff, completed by the assigned student, and verified by staff.
A staff dashboard counts issues per status and Pending tasks that are overdue or due today.

The database is one immutable value, `Model.Store`:
- the existing building ids and user ids;
- an issues table, a cleaning-task table and a garbage-task table.

Each table maps ids to records and keeps its AUTOINCREMENT counter `lastId`.
Every endpoint is a pure function of the store, the caller (`Requester`: user id and role), the current instant `now` where the handler reads the clock, and the request.
It answers with `Results.Result`: either an `Error` (`NotFound`, `Forbidden`, `BadRequest(messages)`, `RoleMismatch`) or a value.
Mutating endpoints return the new store as part of that value.
Read endpoints (lists, get, dashboard) return no store, so they cannot change it.

Checks run in the order ASP.NET Core applies them:
1. The endpoint's role attribute. A mismatch gives `RoleMismatch`.
2. The request validator. Every failing rule adds its message, and any failure gives `BadRequest`.
3. The handler body, with its own NotFound / Forbidden / BadRequest branches.

Cleaning and garbage tasks share one generic `Task` record.
It carries a `TaskKind` tag and one `locus` string (the source's `SharedSpace` or `Location`).
Each task operation takes the kind and touches only that kind's table.

The store invariant `Model.Valid` says:
- every key lies in `1..lastId`;
- every record is stored under its own id;
- every task sits in the table of its kind.

Lists, creates and the dashboard require `Valid`, and every mutating endpoint preserves it.
The task tables also keep `TableStamped`: `CompletedAt` is set iff the status is not Pending. `Stamped` states this for both task tables of the store, and each task endpoint preserves it.
Every task transition satisfies `VerifiedOnlyFromCompleted`.

Modules: `Results`, `Model`, `Collections` (key selection, counting and insertion sort, the model of the SQL `WHERE` / `COUNT` / `ORDER BY` the controllers delegate), `Validators`, `Issues`, `Tasks`, `Dashboard`.

## Model

| member | source | states |
|---|---|---|
| Model.StartOfDay | StudentHousingAPI/Controllers/DashboardController.cs:24-25 | `today` is a midnight (a whole number of days) and `today <= now < today + one day`, so `[today, tomorrow)` is exactly the UTC day containing `now` |
| Model.NextId | StudentHousingAPI/Migrations/20260111183730_InitialCreate.cs:87-88 | on a table whose keys lie in `1..lastId`, the next AUTOINCREMENT id is absent from the table and larger than every existing key |
| Validators.ValidateCreateIssue | StudentHousingAPI/Validators/IssueValidators.cs:6-20 | each rule's message is reported iff that rule fails: blank (empty or whitespace-only) description, description over 1000 chars, shared space given and over 200 chars, `BuildingId <= 0`; the request is admitted iff the description has a non-whitespace char and at most 1000 chars, the shared space is absent or at most 200 chars, and `BuildingId > 0` |
| Validators.ValidateUpdateIssue | StudentHousingAPI/Validators/IssueValidators.cs:22-34 | admitted iff the status is absent or one of Open, InProgress, Resolved, Closed, and the assignee is absent or `> 0`; each failing rule reports its own message |
| Validators.ValidateCreateTask | StudentHousingAPI/Validators/TaskValidators.cs:6-29 | admitted iff the description is non-blank and at most 500 chars, the locus is non-blank and at most 200 chars, `BuildingId > 0`, and the due date is strictly after `now` (a due date equal to `now` is refused); each failing rule reports its own message |
| Issues.ListIssues | StudentHousingAPI/Controllers/IssuesController.cs:23-56 | an issue is listed iff it is stored under its id, belongs to the caller when the caller is a Student, has the requested status when a non-empty status filter is given, and is in the requested building when that filter is given; the list is ordered by `CreatedAt` non-increasing and holds each issue once |
| Issues.GetIssue | StudentHousingAPI/Controllers/IssuesController.cs:78-99 | an absent id gives NotFound (before any ownership test); a Student asking for someone else's issue gets Forbidden; otherwise the stored issue is returned, and it succeeds exactly in that case |
| Issues.CreateIssue | StudentHousingAPI/Controllers/IssuesController.cs:121-145 | non-Students get RoleMismatch; invalid requests get the validator's messages; an unknown building gives BadRequest "Building not found"; otherwise exactly one issue is added under a fresh id, nothing else in the store changes, and the new issue has the request's description, shared space, photo and building, status Open, the caller as creator, no assignee, `CreatedAt = now`, no `UpdatedAt`; `Valid` is preserved |
| Issues.UpdateIssue | StudentHousingAPI/Controllers/IssuesController.cs:174-205 | non-Staff get RoleMismatch; invalid requests get the validator's messages; an absent id gives NotFound; an unknown assignee gives BadRequest even when a status was supplied, with no store returned; on success only this issue changes, and only in status (if supplied), assignee (if supplied) and `UpdatedAt = now` |
| Issues.GetAgreesWithList | StudentHousingAPI/Controllers/IssuesController.cs:37-41 | the caller's unfiltered list contains an issue iff fetching that issue's id succeeds and returns it: list scoping and get ownership are the same rule |
| Issues.EmptyStatusFilterFiltersNothing | StudentHousingAPI/Controllers/IssuesController.cs:44-47 | an empty status filter lists exactly what no status filter lists |
| Issues.FiltersCombineByAnd | StudentHousingAPI/Controllers/IssuesController.cs:43-52 | with both filters, an issue is listed iff it is listed under the status filter alone and under the building filter alone |
| Issues.CreateThenGet | StudentHousingAPI/Controllers/IssuesController.cs:133-145 | round trip: the filed issue is fetched back unchanged by its reporter and by any non-Student, appears in the reporter's list, and is Open, unassigned and not yet updated |
| Issues.CreateUpdateGet | StudentHousingAPI/Controllers/IssuesController.cs:189-205 | a Student files an issue, and Staff then sets a valid status: the update succeeds, and the reporter fetches the issue with the new status, `UpdatedAt` set to the update instant, and its creator and description unchanged |
| Issues.UpdateNeverClearsAssignment | StudentHousingAPI/Controllers/IssuesController.cs:194-202 | once an issue is assigned, every successful update leaves it assigned |
| Issues.EmptyUpdateRestamps | StudentHousingAPI/Controllers/IssuesController.cs:204-205 | an update with no fields, when it succeeds, sets `UpdatedAt` and nothing else; repeating it at another instant succeeds again and changes the store again, so the update is not idempotent |
| Issues.StatusesStayKnown | StudentHousingAPI/Validators/IssueValidators.cs:26-28 | composed with their validators, create and update never store an issue status outside the four admitted values |
| Tasks.ListTasks | StudentHousingAPI/Controllers/TasksController.cs:24-43 | a task of the requested kind is listed iff it is stored under its id and, for a Student caller, assigned to that Student (so never unassigned); the list is ordered by due date ascending and holds each task once; the garbage endpoint at lines 63-82 is the same function with the other kind |
| Tasks.CreateTask | StudentHousingAPI/Controllers/TasksController.cs:102-133 | non-Staff get RoleMismatch; invalid requests get the validator's messages; an unknown building or an unknown given assignee gives BadRequest; otherwise exactly one task of the requested kind is added under a fresh id, with the other table and the rest of the store unchanged; the new task is Pending, has no `CompletedAt`, takes its locus from `LocationOrSpace` and its other fields from the request; `Valid`, `TableStamped`, store-wide `Stamped` and `VerifiedOnlyFromCompleted` hold afterwards (garbage twin at lines 157-188) |
| Tasks.CompleteTask | StudentHousingAPI/Controllers/TasksController.cs:212-231 | non-Students get RoleMismatch; an absent id gives NotFound before any ownership test; a task not assigned to the caller, unassigned ones included, gives Forbidden; otherwise only that task changes, to Completed with `CompletedAt = now`, whatever its prior status; `Valid`, `TableStamped`, store-wide `Stamped` and `VerifiedOnlyFromCompleted` are preserved (garbage twin at lines 236-255) |
| Tasks.VerifyTask | StudentHousingAPI/Controllers/TasksController.cs:260-279 | non-Staff get RoleMismatch; an absent id gives NotFound; a task not Completed gives BadRequest "Task must be completed before verification"; otherwise only that task changes, to Verified, keeping its `CompletedAt`; `Valid`, `TableStamped`, store-wide `Stamped` and `VerifiedOnlyFromCompleted` are preserved (garbage twin at lines 282-301) |
| Tasks.CompleteAllowedIffListed | StudentHousingAPI/Controllers/TasksController.cs:219-227 | a Student may complete a task iff a task with that id is in their own list of that kind |
| Tasks.CompleteThenVerify | StudentHousingAPI/Controllers/TasksController.cs:229-279 | after a successful complete, Staff verification succeeds and the task ends Verified with the completion instant |
| Tasks.VerifyTwiceRefused | StudentHousingAPI/Controllers/TasksController.cs:271-276 | verification is forward-only: verifying a just-verified task is refused with the not-completed message |
| Tasks.PendingCannotBeVerified | StudentHousingAPI/Controllers/TasksController.cs:271-274 | there is no direct Pending to Verified transition |
| Tasks.CompleteReopensVerified | StudentHousingAPI/Controllers/TasksController.cs:224-231 | completion has no status guard: the assignee can take a Verified task back to Completed and restamp `CompletedAt` |
| Dashboard.GetDashboard | StudentHousingAPI/Controllers/DashboardController.cs:21-57 | non-Staff get RoleMismatch; each issue count equals the number of issues whose status is exactly that string; `overdueTasks` is the number of Pending cleaning tasks due before `now` plus the number of such garbage tasks; `tasksDueToday` is the same sum for Pending tasks due within the UTC day of `now` |
| Dashboard.IssueCountsAddUp | StudentHousingAPI/Controllers/DashboardController.cs:27-30 | the four issue counts sum to at most the number of issues, and exactly to it when every stored status is one of the four values |
| Dashboard.DashboardReadsItsOwnTables | StudentHousingAPI/Controllers/DashboardController.cs:27-44 | stores with the same issues give the same issue counts; stores with the same task tables give the same task counts |
| Dashboard.CompleteNeverRaisesTaskCounts | StudentHousingAPI/Controllers/DashboardController.cs:32-44 | completing a task never increases the overdue or due-today count, at any evaluation instant |
| Dashboard.VerifyKeepsTaskCounts | StudentHousingAPI/Controllers/DashboardController.cs:32-44 | verifying a task leaves both task counts unchanged, since neither Completed nor Verified is counted |
| Dashboard.CreatedTaskNotOverdue | StudentHousingAPI/Validators/TaskValidators.cs:25-28 | composed with the future-due-date rule, a task created at `now` leaves the set of overdue Pending tasks of both kinds at `now` unchanged, and the Staff dashboard's overdue count at its creation instant is the same before and after |
| Dashboard.CreatedTaskLaterOverdue | StudentHousingAPI/Controllers/DashboardController.cs:32-37 | a created task whose due date is before a later instant `at` makes the overdue count at `at` at least one |

## Left out

- Login, password hashing and token issuance (`AuthController.cs`) are calls into services that are not part of this model.
- Claims parsing is left out. The caller's id and role are trusted inputs, and a role string outside Student, Staff and Maintenance is not modelled.
- The denormalised `BuildingName`, `CreatedByUsername` and `AssignedToUsername` view fields are left out. They are read-time joins and carry no decision.
- Complete and verify answer with fixed confirmation messages. The model returns only the new store.
- Lengths are counted in Unicode scalar values. .NET counts UTF-16 code units, so text outside the Basic Multilingual Plane is measured differently.
- The request body is taken as already bound. JSON binding failures are not modelled. For example, `Description` (and `LocationOrSpace` for tasks) is declared `required`, so a body that omits it is rejected with a 400 while the JSON is read, before any validator runs. Only an explicit `"description": null` binds to null and reaches `NotEmpty`, which rejects it as blank; the model's strings are never null.
- Database column limits are not modelled, for example a status of at most 50 chars. The validators already bound every field they check.
- Concurrency is not modelled: last-write-wins between simultaneous requests, async `SaveChangesAsync` and `Include` loading.
- Referential actions and deletion are not modelled. No modelled endpoint deletes anything.
- Dashboard.GetDashboard: reads the clock once. The source reads `DateTime.UtcNow` separately for the day boundary and for each overdue query.
- Tasks.CreateTask: uses one instant for the due-date rule and for `CreatedAt`. The source reads the clock separately in the validator and in the handler.
- Issues.ListIssues: says nothing about the order of issues with equal `CreatedAt`. The source's SQL `ORDER BY` leaves that order unspecified too.
- Tasks.ListTasks: says nothing about the order of tasks with equal due dates, for the same reason.
- `UpdatedAt` being set iff the issue was ever updated is a history property. The model shows its two halves instead: create leaves it unset (`Issues.CreateIssue`), and every successful update sets it (`Issues.UpdateIssue`).
- Creating a task that is already due is impossible through the API, because the due date must lie strictly in the future. `Dashboard.CreatedTaskNotOverdue` states this, and `Dashboard.CreatedTaskLaterOverdue` shows such a task becoming overdue once its due date has passed.
