# Support-ticket tracker: a Dafny model of its ticket lifecycle

The tracker is a small Flask application. Reporters file tickets with a
title, a description and a priority. Admins assign tickets to themselves and
move them between statuses. Anyone can delete a ticket. There is no
authentication: the client picks a name and a role from two fixed
allow-lists, and the choice is kept in the session.

The model covers three parts of `app.py` and the record they work on, from
`models.py`:

- `Models.dfy`: the `Ticket` record with its column defaults, the status and
  priority enumerations, and `to_dict` together with an inverse for it.
- `Identity.dfy`: the allow-lists, the session (a `class` with its two
  entries), `current_user`, `is_admin`, `is_reporter` and `set_role`.
- `Validation.dfy`: `validate_ticket_data` and the Python `str.strip()` it
  uses. `Trim` is defined on its own and characterised independently.
- `Service.dfy`: the ticket table. It is a `class` holding `map<int, Ticket>`
  and the next key. Its methods are the JSON handlers `get_tickets`,
  `create_ticket`, `assign_self`, `update_status` and `delete_ticket`, plus
  the per-status count loop of the index page.
- `Wrappers.dfy`: the `Option` type.

Each handler returns a `Response`: an HTTP status code and a JSON body. The
postcondition of a handler lists its checks in the order the code makes
them, with the response for each one. It also states the whole new table:
unchanged, or one row inserted, replaced or removed. Every handler keeps the
table invariant `TicketStore.Valid()`. Under it, keys are the rows' ids,
status and priority come from their enumerations, the reporter is a known
reporter, the assignee (if any) is a known admin, and both timestamps are
set. Every handler also keeps `AssignmentsKept`: once `assigned_admin` is
set, it never changes.

The environment is handled as follows:

- Time is an integer `now` passed in by the caller.
- A failing database commit is a boolean `commitFails` passed in by the
  caller. A failed commit gives the handler's 500 response and leaves the
  table unchanged, as the rollback does.
- A request body is `Option<map<string, string>>`. `None` stands for a
  JSON `null` body, which `not data` rejects like an empty object.

Notes on how the model reads the code:

- The description check has a `len < 1` test after a "not empty" test, so it
  can never fire. `DescriptionProblems` states that the length message is
  given exactly for more than 1000 characters.
- Titles and descriptions are checked after stripping but stored exactly as
  sent (app.py:165-167). A stored title can therefore be longer than the
  120-character bound of its column and of the validation message.
  `PaddedTitlePasses` exhibits one. SQLite does not enforce `String(120)`,
  so the insert succeeds.
- `assign_self` refuses a ticket whose `assigned_admin` is truthy. The
  contract says "already assigned" whenever a name is stored. The two agree
  because under the table invariant a stored name is an admin's name, which
  is never empty.
- SQLite sorts NULL below every date, so in `ORDER BY created_at DESC` rows
  without a creation time come last (`NotOlder`). The order of rows with
  equal creation times is not fixed by the query. The model promises only
  the descending order and exactly the matching rows, each once.

## Model

| member | source | states |
|---|---|---|
| Models.ValidStatuses | models.py:18-20 | the status enumeration has three distinct entries, including the default `open` |
| Models.ValidPriorities | models.py:22-24 | the priority enumeration has three distinct entries, including the default `medium` |
| Models.NewTicket | models.py:6-15 | a new row keeps the given fields, takes status `open`, priority `medium` when none is given, no assignee, and both timestamps equal to the clock |
| Models.ToDict | models.py:29-40 | exactly the nine keys; `assigned_admin`, `created_at` and `updated_at` are null exactly when absent |
| Models.ToDictRoundTrip | models.py:29-40 | reading the dictionary back gives the ticket: `to_dict` loses nothing |
| Identity.RoleAssignment | app.py:113-130 | an identity is stored exactly for a known role; the role is kept; the name is kept exactly when it is on that role's allow-list, else it becomes the list's first entry (Admin1 or Alice); the result is always allowed |
| Identity.RoleAssignmentKeepsAllowed | app.py:114-119 | asking for an allowed identity stores exactly that identity |
| Identity.Session.constructor | app.py:19-20 | a new session has no entries and satisfies the session invariant |
| Identity.Session.CurrentUser | app.py:17-21 | a stored name and a stored role are returned as stored; each missing entry falls back to Alice and Reporter; under the session invariant, an allowed identity |
| Identity.Session.IsAdmin | app.py:23-25 | under the session invariant, true exactly when the acting name is an admin |
| Identity.Session.IsReporter | app.py:27-29 | never true together with `IsAdmin`; under the invariant, true exactly when the acting name is a reporter |
| Identity.Session.SetRole | app.py:107-131 | flashes exactly when the role is unknown, and then leaves both entries alone; otherwise stores both entries as `RoleAssignment` decides and leaves the session valid |
| Validation.TrimStart | app.py:36 | the left strip is never longer than its input and does not start with whitespace (one of the 29 code points of Python's `str.isspace()`, `IsSpace`) |
| Validation.TrimEnd | app.py:36 | the right strip is never longer than its input and does not end with whitespace |
| Validation.Trim | app.py:36 | `strip()` is never longer than its input, and starts and ends with a character other than whitespace |
| Validation.TrimStartSpec | app.py:36 | the left strip is the longest suffix not starting with whitespace |
| Validation.TrimEndSpec | app.py:36 | the right strip is the longest prefix not ending with whitespace |
| Validation.TrimSpec | app.py:36 | `strip()` gives an infix with only whitespace around it, starting and ending with non-whitespace, empty exactly for an all-whitespace string |
| Validation.TrimStartAt | app.py:36 | leading whitespace up to the first other character is what the left strip removes |
| Validation.TrimEndAt | app.py:43 | trailing whitespace after the last other character is what the right strip removes |
| Validation.TrimCharacterised | app.py:43 | any infix that starts and ends with non-whitespace and has only whitespace around it is the result of `strip()` |
| Validation.TrimIdempotent | app.py:43 | stripping twice is stripping once |
| Validation.Message | app.py:38-52 | each of the five validation messages begins with the initial of the field it faults: T, D or P for Title, Description or Priority |
| Validation.MessageInjective | app.py:38-52 | different problems are reported with different messages |
| Validation.PriorityMessageText | app.py:52 | the priority message reads "Priority must be one of: low, medium, high" |
| Validation.Messages | app.py:160-162 | one message per problem, in order |
| Validation.TitleProblems | app.py:35-40 | at most one problem; none exactly when the stripped title has 3 to 120 characters; "required" exactly when it is empty |
| Validation.DescriptionProblems | app.py:42-47 | at most one problem; none exactly when the stripped description has 1 to 1000 characters; "required" exactly when empty; the length problem exactly above 1000 characters, so the `< 1` test never fires |
| Validation.PriorityProblems | app.py:49-52 | a problem exactly when the priority, unstripped, is not in the enumeration |
| Validation.ProblemsOfConcat | app.py:33-54 | in the collected list, each kind of problem comes only from its own field |
| Validation.ValidateTicketData | app.py:31-54 | at most three problems; none exactly when the three bounds hold; each field is faulted exactly when its own bound fails, whatever the others give; "required" exactly for an empty stripped title or description, the description length problem exactly above 1000 characters; problems ordered title, description, priority, at most one per field; an empty list means all three keys are present |
| Validation.EmptyTitleIsRequired | app.py:36-40 | an empty stripped title is reported as required and never as the wrong length |
| Validation.PaddedTitlePasses | app.py:160-167 | a body whose raw title is longer than 120 characters passes validation |
| Models.Join | app.py:52 | Python's `sep.join`: empty for no items, otherwise starting with the first item |
| Models.StatusListText | app.py:214 | the statuses joined with ", " read "open, in_progress, closed" |
| Service.StatusError | app.py:214 | the status message starts with "Status must be one of: " |
| Service.StatusErrorText | app.py:214 | the status message reads "Status must be one of: open, in_progress, closed" |
| Service.AssignmentsKeptRefl | app.py:187-188 | a table that does not change keeps every assignment |
| Service.AssignmentsKeptByWrite | app.py:187-191 | writing a row that had no assignee, or keeps its assignee, keeps every assignment |
| Service.InsertByAge | app.py:147 | the result is the list with the new row added, as a multiset |
| Service.InsertByAgeMembers | app.py:147 | the rows of the result are those of the list and the new row |
| Service.InsertByAgeSorted | app.py:147 | inserting into a newest-first list keeps it newest first |
| Service.InsertByAgeDistinct | app.py:147 | inserting a row with a new id keeps ids distinct |
| Service.ListedStep | app.py:140-147 | scanning one more key keeps the listing equal to the matching rows seen so far, each once, newest first |
| Service.ToDicts | app.py:148 | one dictionary per row, in order, each exactly the row's `to_dict` form and so reading back to its row |
| Service.StatusCountsCoverTable | app.py:73-76 | when every status is valid, the three counts add up to the number of rows |
| Service.TicketStore.constructor | app.py:262-264 | an empty table that satisfies the table invariant |
| Service.TicketStore.GetTickets | app.py:134-148 | 200 with exactly the rows matching each non-empty filter, each once, newest first with NULL last |
| Service.TicketStore.StatusCounts | app.py:73-76 | one entry per valid status, each holding the number of rows with that status |
| Service.TicketStore.CreateTicket | app.py:150-177 | 403 for a non-reporter, 400 for a missing or empty body, 400 with every validation message, 500 on a failed commit, each with the table unchanged; otherwise exactly one new row under a fresh id, holding the raw title and description, the caller as reporter, status `open` and no assignee, answered with 201 |
| Service.TicketStore.CreateFromData | app.py:160-177 | for a reporter's non-empty body: 400 with every validation message or 500 on a failed commit, each with the table unchanged; otherwise the new row under the next key, answered with 201 |
| Service.TicketStore.Insert | app.py:171-172 | the row goes in under the next key, which no row held; the key counter advances; the table invariant and every assignment are kept |
| Service.TicketStore.AssignSelf | app.py:179-198 | 403 for a non-admin, 404 for a missing id, 400 for an assigned ticket, 500 on a failed commit, each with the table unchanged; otherwise only that row's assignee (the caller) and `updated_at` change |
| Service.TicketStore.UpdateStatus | app.py:200-224 | 403 for a non-admin, 404 for a missing id, 400 for a missing status, 400 for a status outside the enumeration, 500 on a failed commit, each with the table unchanged; otherwise only that row's status and `updated_at` change, from any status to any other |
| Service.TicketStore.DeleteTicket | app.py:226-237 | no role check; 404 for a missing id, 500 on a failed commit, each with the table unchanged; otherwise exactly that row is removed |

## Left out

- Flask routing, template rendering, `flash` and `redirect` are not modelled. `SetRole` returns whether a message is flashed.
- The page routes `index`, `new_ticket` and `admin` are not modelled beyond the filtered listing and the status counts they share with the API.
- The error handlers (app.py:239-260) are reduced to the JSON body of the 404 that `get_or_404` produces on an API path (`NOT_FOUND`).
- The cookie mechanics of the Flask session are not modelled. The session is a record with two optional entries.
- Service.TicketStore.CreateTicket, Service.TicketStore.AssignSelf and Service.TicketStore.UpdateStatus require `session.Valid()`: they assume the session was written only by `set_role`. A client that forges the signed cookie (the secret key at app.py:7 is a fixed placeholder) could store any name and role, and is outside the model. For instance, an admin name of `""` would pass the truthiness test at app.py:187, so a second admin could take the ticket.
- `request.get_json()` parsing is not modelled. What a missing or non-JSON body gives depends on the Flask version: older versions return None, which the model covers. Newer ones raise at the `get_json()` call itself (app.py:156, app.py:207). That call comes after the role check and, in `update_status`, after the 404 check, so those responses are as modelled. Only "No data provided" and "Status is required" change: the request gets the 400 "Bad request" of app.py:240-245, or a 415, instead. A body that is JSON but not an object, and field values that are not strings, are outside the model.
- SQLAlchemy and SQLite are not modelled. A map from id to row replaces them, and a commit failure is an input flag.
- Service.TicketStore.CreateTicket: new ids come from a counter that only grows. The model does not capture SQLite's reuse of the largest id after that row is deleted.
- `datetime.utcnow()` and ISO-8601 formatting are not modelled. Time is an integer supplied by the caller, and `to_dict` emits it as an abstract timestamp value. One clock reading stands for every `utcnow()` call in a request. For example, a new row's `created_at` and `updated_at` come from two calls (models.py:14-15) and can differ by microseconds, whereas `NewTicket` makes them equal. Because the clock is not assumed to be monotonic, no order between `created_at` and `updated_at` is stated.
- Service.TicketStore.GetTickets: rows with equal `created_at` may come in any order, as the query leaves it open. Only the descending order is promised.
- `seed.py` is not part of this model. It is a one-shot loader made of database writes and console I/O.
- Two admins assigning the same ticket at the same time is a concurrency question. The model is sequential.
- `Ticket.__repr__` is not modelled. It is used only for debugging output.
