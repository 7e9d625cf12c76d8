/** The ticket service of app.py: the JSON handlers over the table of
    tickets, the filtered listing shared by `get_tickets` and the index page,
    and the per-status counts of the index page. The HTTP layer is reduced to
    a response code and a body; the database to a map from id to row. */
module Service {
  import opened Wrappers
  import opened Models
  import opened Identity
  import opened Validation

  /** The JSON body of a response. */
  datatype Body =
    | Errors(errors: seq<string>)
    | Notice(message: string)
    | One(ticket: map<string, Json>)
    | Many(tickets: seq<map<string, Json>>)

  datatype Response = Response(code: int, body: Body)

  /** What `get_or_404` ends in: the 404 handler's JSON for an API path. */
  const NOT_FOUND: Response := Response(404, Notice("Resource not found"))

  /** The message for a status outside the enumeration. */
  function StatusError(): (r: string)
    ensures "Status must be one of: " <= r
  {
    "Status must be one of: " + Join(ValidStatuses(), ", ")
  }

  /** The status message names the three statuses in order. */
  lemma StatusErrorText()
    ensures StatusError() == "Status must be one of: open, in_progress, closed"
  {
    StatusListText();
  }

  /** Python truthiness of a nullable text column: NULL and "" are false. */
  predicate Truthy(s: Option<string>) {
    s.Some? && s.value != ""
  }

  /** What every stored row satisfies: status and priority from their
      enumerations, the reporter a known reporter, the assignee (if any) a
      known admin, and both timestamps set. */
  predicate WellFormed(t: Ticket) {
    && t.status in ValidStatuses()
    && t.priority in ValidPriorities()
    && t.reporterName in REPORTERS
    && (t.assignedAdmin.Some? ==> t.assignedAdmin.value in ADMINS)
    && t.createdAt.Some? && t.updatedAt.Some?
  }

  /** Between two states of the table, `assigned_admin` never changes once
      it is set: it only goes from NULL to a name. */
  predicate AssignmentsKept(before: map<int, Ticket>, after: map<int, Ticket>) {
    forall id :: id in before && id in after && before[id].assignedAdmin.Some? ==>
      after[id].assignedAdmin == before[id].assignedAdmin
  }

  lemma AssignmentsKeptRefl(tickets: map<int, Ticket>)
    ensures AssignmentsKept(tickets, tickets)
  {
  }

  /** Writing row `id` keeps every assignment when that row had none or keeps it. */
  lemma AssignmentsKeptByWrite(tickets: map<int, Ticket>, id: int, t: Ticket)
    requires id in tickets && tickets[id].assignedAdmin.Some? ==> t.assignedAdmin == tickets[id].assignedAdmin
    ensures AssignmentsKept(tickets, tickets[id := t])
  {
  }

  // ---------------------------------------------------------------------
  // Listing: filters and `ORDER BY created_at DESC`

  /** The two query filters; an empty filter constrains nothing. An
      assignee filter never matches an unassigned row (NULL = text is false). */
  predicate Matches(t: Ticket, statusFilter: string, adminFilter: string) {
    && (statusFilter == "" || t.status == statusFilter)
    && (adminFilter == "" || t.assignedAdmin == Some(adminFilter))
  }

  /** `a` may come before `b` in descending `created_at` order; SQLite
      orders NULL below every date, so NULL rows come last. */
  predicate NotOlder(a: Option<Time>, b: Option<Time>) {
    b == None || (a.Some? && a.value >= b.value)
  }

  predicate NewestFirst(rows: seq<Ticket>) {
    forall i, j :: 0 <= i < j < |rows| ==> NotOlder(rows[i].createdAt, rows[j].createdAt)
  }

  predicate DistinctIds(rows: seq<Ticket>) {
    forall i, j :: 0 <= i < j < |rows| ==> rows[i].id != rows[j].id
  }

  /** Places `t` into a list kept newest first: the result holds the rows
      and `t`, nothing else (see `InsertByAgeSorted` and `InsertByAgeDistinct`). */
  function InsertByAge(rows: seq<Ticket>, t: Ticket): (r: seq<Ticket>)
    ensures multiset(r) == multiset(rows) + multiset{t}
  {
    if rows == [] || NotOlder(t.createdAt, rows[0].createdAt) then [t] + rows
    else
      assert rows == [rows[0]] + rows[1..];
      [rows[0]] + InsertByAge(rows[1..], t)
  }

  /** The rows of the result are those of the list and `t`. */
  lemma InsertByAgeMembers(rows: seq<Ticket>, t: Ticket)
    ensures forall x :: x in InsertByAge(rows, t) <==> x in rows || x == t
  {
    var r := InsertByAge(rows, t);
    forall x
      ensures x in r <==> x in rows || x == t
    {
      assert x in r <==> x in multiset(r);
      assert x in rows <==> x in multiset(rows);
    }
  }

  /** Inserting into a list kept newest first keeps it newest first. */
  lemma {:induction false} InsertByAgeSorted(rows: seq<Ticket>, t: Ticket)
    requires NewestFirst(rows)
    ensures NewestFirst(InsertByAge(rows, t))
  {
    if rows == [] || NotOlder(t.createdAt, rows[0].createdAt) {
    } else {
      var rest := InsertByAge(rows[1..], t);
      InsertByAgeSorted(rows[1..], t);
      var r := [rows[0]] + rest;
      forall j | 0 < j < |r| ensures NotOlder(r[0].createdAt, r[j].createdAt) {
        assert r[j] in multiset(rest);
        assert r[j] in rows[1..] || r[j] == t;
      }
    }
  }

  /** Inserting a row whose id the list does not hold keeps ids distinct. */
  lemma {:induction false} InsertByAgeDistinct(rows: seq<Ticket>, t: Ticket)
    requires DistinctIds(rows) && forall x :: x in rows ==> x.id != t.id
    ensures DistinctIds(InsertByAge(rows, t))
  {
    if rows == [] || NotOlder(t.createdAt, rows[0].createdAt) {
    } else {
      var rest := InsertByAge(rows[1..], t);
      InsertByAgeDistinct(rows[1..], t);
      var r := [rows[0]] + rest;
      forall j | 0 < j < |r| ensures r[0].id != r[j].id {
        assert r[j] in multiset(rest);
        assert r[j] in rows[1..] || r[j] == t;
      }
    }
  }

  /** The listing built so far by a scan of the table in key order: the
      matching rows with a key below `scanned`, each once, newest first. */
  predicate Listed(tickets: map<int, Ticket>, scanned: int, rows: seq<Ticket>,
                   statusFilter: string, adminFilter: string)
  {
    && (forall t :: t in rows ==>
          t.id in tickets && tickets[t.id] == t && t.id < scanned && Matches(t, statusFilter, adminFilter))
    && (forall id :: id in tickets && id < scanned && Matches(tickets[id], statusFilter, adminFilter) ==>
          tickets[id] in rows)
    && DistinctIds(rows)
    && NewestFirst(rows)
  }

  /** Scanning the row with key `key` (if there is one) keeps the listing correct. */
  lemma ListedStep(tickets: map<int, Ticket>, key: int, rows: seq<Ticket>,
                   statusFilter: string, adminFilter: string)
    requires forall id :: id in tickets ==> tickets[id].id == id
    requires Listed(tickets, key, rows, statusFilter, adminFilter)
    ensures key in tickets && Matches(tickets[key], statusFilter, adminFilter) ==>
              Listed(tickets, key + 1, InsertByAge(rows, tickets[key]), statusFilter, adminFilter)
    ensures !(key in tickets && Matches(tickets[key], statusFilter, adminFilter)) ==>
              Listed(tickets, key + 1, rows, statusFilter, adminFilter)
  {
    if key in tickets && Matches(tickets[key], statusFilter, adminFilter) {
      var t := tickets[key];
      assert forall x :: x in rows ==> x.id != t.id;
      var r := InsertByAge(rows, t);
      InsertByAgeSorted(rows, t);
      InsertByAgeDistinct(rows, t);
      InsertByAgeMembers(rows, t);
    }
  }

  /** The JSON list of `[ticket.to_dict() for ticket in tickets]`: row by
      row the `to_dict` form, so each element reads back to its row. */
  function ToDicts(rows: seq<Ticket>): (r: seq<map<string, Json>>)
    ensures |r| == |rows|
    ensures forall i :: 0 <= i < |rows| ==> r[i] == ToDict(rows[i])
    ensures forall i :: 0 <= i < |rows| ==> FromDict(r[i]) == Some(rows[i])
  {
    if rows == [] then [] else ToDictRoundTrip(rows[0]); [ToDict(rows[0])] + ToDicts(rows[1..])
  }

  // ---------------------------------------------------------------------
  // Status counts

  /** The ids of the rows with status `s`. */
  function WithStatus(tickets: map<int, Ticket>, s: string): set<int> {
    set id | id in tickets && tickets[id].status == s
  }

  /** When every row has a valid status, the per-status counts add up to the
      number of rows. */
  lemma StatusCountsCoverTable(tickets: map<int, Ticket>)
    requires forall id :: id in tickets ==> tickets[id].status in ValidStatuses()
    ensures |WithStatus(tickets, "open")| + |WithStatus(tickets, "in_progress")|
              + |WithStatus(tickets, "closed")| == |tickets|
  {
    var o, p, c := WithStatus(tickets, "open"), WithStatus(tickets, "in_progress"),
                   WithStatus(tickets, "closed");
    forall id | id in tickets ensures id in o + p + c {
      assert tickets[id].status in ValidStatuses();
    }
    assert o !! p && (o + p) !! c;
    assert o + p + c == tickets.Keys;
    assert |o + p| == |o| + |p|;
    assert |o + p + c| == |o + p| + |c|;
  }

  // ---------------------------------------------------------------------
  // The table and its handlers

  class TicketStore {
    /** The rows, by primary key. */
    var tickets: map<int, Ticket>
    /** The key the next insert receives. */
    var nextId: int

    /** Keys are the rows' ids, all below `nextId`, and every row is well formed. */
    ghost predicate Valid()
      reads this
    {
      && 1 <= nextId
      && forall id :: id in tickets ==> 1 <= id < nextId && tickets[id].id == id && WellFormed(tickets[id])
    }

    /** An empty table. */
    constructor ()
      ensures Valid()
      ensures tickets == map[] && nextId == 1
    {
      tickets, nextId := map[], 1;
    }

    /** `get_tickets` (and the listing of the index page): exactly the rows
        matching both filters, each once, newest first; the response carries
        their `to_dict` forms in that order. */
    method GetTickets(statusFilter: string, adminFilter: string) returns (resp: Response, rows: seq<Ticket>)
      requires Valid()
      ensures forall t :: t in rows ==> t.id in tickets && tickets[t.id] == t && Matches(t, statusFilter, adminFilter)
      ensures forall id :: id in tickets && Matches(tickets[id], statusFilter, adminFilter) ==> tickets[id] in rows
      ensures DistinctIds(rows)
      ensures NewestFirst(rows)
      ensures resp == Response(200, Many(ToDicts(rows)))
    {
      rows := [];
      for key := 1 to nextId
        invariant Listed(tickets, key, rows, statusFilter, adminFilter)
      {
        ListedStep(tickets, key, rows, statusFilter, adminFilter);
        if key in tickets && Matches(tickets[key], statusFilter, adminFilter) {
          rows := InsertByAge(rows, tickets[key]);
        }
      }
      resp := Response(200, Many(ToDicts(rows)));
    }

    /** The status-count loop of the index page: one entry per valid status,
        holding the number of rows with that status. */
    method StatusCounts() returns (counts: map<string, int>)
      ensures counts.Keys == set s | s in ValidStatuses()
      ensures forall s :: s in counts ==> counts[s] == |WithStatus(tickets, s)|
    {
      counts := map[];
      var statuses := ValidStatuses();
      for i := 0 to |statuses|
        invariant counts.Keys == set s | s in statuses[..i]
        invariant forall s :: s in counts ==> counts[s] == |WithStatus(tickets, s)|
      {
        var status := statuses[i];
        var count := |set id | id in tickets && tickets[id].status == status|;
        counts := counts[status := count];
      }
    }

    /** `create_ticket`. Checks, in order: the caller is a reporter (403), a
        non-empty body was sent (400), the body validates (400 with every
        problem). Then one row is inserted under a fresh id, holding the
        title and description exactly as sent, the caller as reporter,
        status `open`, no assignee; unless the commit fails (500), in which
        case nothing changes. */
    method CreateTicket(session: Session, body: Option<map<string, string>>, now: Time, commitFails: bool)
      returns (resp: Response)
      requires Valid() && session.Valid()
      modifies this
      ensures Valid()
      ensures AssignmentsKept(old(tickets), tickets)
      ensures !old(session.IsReporter()) ==>
        resp == Response(403, Errors(["Only reporters can create tickets"])) && unchanged(this)
      ensures old(session.IsReporter()) && (body == None || body == Some(map[])) ==>
        resp == Response(400, Errors(["No data provided"])) && unchanged(this)
      ensures old(session.IsReporter()) && body.Some? && body.value != map[] && ValidateTicketData(body.value) != [] ==>
        resp == Response(400, Errors(Messages(ValidateTicketData(body.value)))) && unchanged(this)
      ensures old(session.IsReporter()) && body.Some? && body.value != map[] && ValidateTicketData(body.value) == [] ==>
        var data := body.value;
        var t := NewTicket(old(nextId), data["title"], data["description"], Some(data["priority"]),
                           old(session.CurrentUser().name), now);
        if commitFails then
          resp == Response(500, Errors(["Failed to create ticket"])) && unchanged(this)
        else
          && old(nextId) !in old(tickets)
          && tickets == old(tickets)[old(nextId) := t]
          && nextId == old(nextId) + 1
          && resp == Response(201, One(ToDict(t)))
    {
      AssignmentsKeptRefl(tickets);
      if !session.IsReporter() {
        return Response(403, Errors(["Only reporters can create tickets"]));
      }
      if body == None || body == Some(map[]) {
        return Response(400, Errors(["No data provided"]));
      }
      resp := CreateFromData(session.CurrentUser().name, body.value, now, commitFails);
    }

    /** The part of `create_ticket` after the role and body checks, for a
        reporter named `reporter`: validation (400 with every problem), then
        the insert under a fresh id, or 500 with nothing changed when the
        commit fails. */
    method CreateFromData(reporter: string, data: map<string, string>, now: Time, commitFails: bool)
      returns (resp: Response)
      requires Valid() && reporter in REPORTERS
      modifies this
      ensures Valid()
      ensures AssignmentsKept(old(tickets), tickets)
      ensures ValidateTicketData(data) != [] ==>
        resp == Response(400, Errors(Messages(ValidateTicketData(data)))) && unchanged(this)
      ensures ValidateTicketData(data) == [] ==>
        var t := NewTicket(old(nextId), data["title"], data["description"], Some(data["priority"]), reporter, now);
        if commitFails then
          resp == Response(500, Errors(["Failed to create ticket"])) && unchanged(this)
        else
          && old(nextId) !in old(tickets)
          && tickets == old(tickets)[old(nextId) := t]
          && nextId == old(nextId) + 1
          && resp == Response(201, One(ToDict(t)))
    {
      AssignmentsKeptRefl(tickets);
      var problems := ValidateTicketData(data);
      if problems != [] {
        return Response(400, Errors(Messages(problems)));
      }
      if commitFails {
        return Response(500, Errors(["Failed to create ticket"]));
      }
      assert PriorityValid(Get(data, "priority"));
      var t := NewTicket(nextId, data["title"], data["description"], Some(data["priority"]), reporter, now);
      Insert(t);
      resp := Response(201, One(ToDict(t)));
    }

    /** `db.session.add(ticket)` and a successful commit: the row goes in
        under the next key, which no row holds yet. */
    method Insert(t: Ticket)
      requires Valid() && t.id == nextId && WellFormed(t) && t.assignedAdmin == None
      modifies this
      ensures Valid()
      ensures AssignmentsKept(old(tickets), tickets)
      ensures old(nextId) !in old(tickets)
      ensures tickets == old(tickets)[old(nextId) := t] && nextId == old(nextId) + 1
    {
      AssignmentsKeptByWrite(tickets, nextId, t);
      tickets := tickets[nextId := t];
      nextId := nextId + 1;
    }

    /** `assign_self`. Checks, in order: the caller is an admin (403), the
        ticket exists (404), it has no assignee yet (400). Then only that
        row's `assigned_admin` (the caller) and `updated_at` change; unless the
        commit fails (500), in which case nothing changes. */
    method AssignSelf(session: Session, id: int, now: Time, commitFails: bool) returns (resp: Response)
      requires Valid() && session.Valid()
      modifies this
      ensures Valid() && nextId == old(nextId)
      ensures AssignmentsKept(old(tickets), tickets)
      ensures !old(session.IsAdmin()) ==>
        resp == Response(403, Errors(["Only admins can assign tickets"])) && tickets == old(tickets)
      ensures old(session.IsAdmin()) && id !in old(tickets) ==>
        resp == NOT_FOUND && tickets == old(tickets)
      ensures old(session.IsAdmin()) && id in old(tickets) && old(tickets)[id].assignedAdmin.Some? ==>
        resp == Response(400, Errors(["Ticket is already assigned"])) && tickets == old(tickets)
      ensures old(session.IsAdmin()) && id in old(tickets) && old(tickets)[id].assignedAdmin == None ==>
        var t := old(tickets)[id].(assignedAdmin := Some(old(session.CurrentUser().name)), updatedAt := Some(now));
        if commitFails then
          resp == Response(500, Errors(["Failed to assign ticket"])) && tickets == old(tickets)
        else
          tickets == old(tickets)[id := t] && resp == Response(200, One(ToDict(t)))
    {
      if !session.IsAdmin() {
        return Response(403, Errors(["Only admins can assign tickets"]));
      }
      if id !in tickets {
        return NOT_FOUND;
      }
      var ticket := tickets[id];
      if Truthy(ticket.assignedAdmin) {
        return Response(400, Errors(["Ticket is already assigned"]));
      }
      if commitFails {
        return Response(500, Errors(["Failed to assign ticket"]));
      }
      ticket := ticket.(assignedAdmin := Some(session.CurrentUser().name), updatedAt := Some(now));
      tickets := tickets[id := ticket];
      resp := Response(200, One(ToDict(ticket)));
    }

    /** `update_status`. Checks, in order: the caller is an admin (403), the
        ticket exists (404), the body has a `status` (400), the status is one
        of the enumeration (400). Then only that row's `status` and
        `updated_at` change, whatever the old status was; unless the commit
        fails (500), in which case nothing changes. */
    method UpdateStatus(session: Session, id: int, body: Option<map<string, string>>, now: Time, commitFails: bool)
      returns (resp: Response)
      requires Valid() && session.Valid()
      modifies this
      ensures Valid() && nextId == old(nextId)
      ensures AssignmentsKept(old(tickets), tickets)
      ensures !old(session.IsAdmin()) ==>
        resp == Response(403, Errors(["Only admins can update ticket status"])) && tickets == old(tickets)
      ensures old(session.IsAdmin()) && id !in old(tickets) ==>
        resp == NOT_FOUND && tickets == old(tickets)
      ensures old(session.IsAdmin()) && id in old(tickets) && (body == None || "status" !in body.value) ==>
        resp == Response(400, Errors(["Status is required"])) && tickets == old(tickets)
      ensures old(session.IsAdmin()) && id in old(tickets) && body.Some? && "status" in body.value
              && body.value["status"] !in ValidStatuses() ==>
        resp == Response(400, Errors([StatusError()])) && tickets == old(tickets)
      ensures old(session.IsAdmin()) && id in old(tickets) && body.Some? && "status" in body.value
              && body.value["status"] in ValidStatuses() ==>
        var t := old(tickets)[id].(status := body.value["status"], updatedAt := Some(now));
        if commitFails then
          resp == Response(500, Errors(["Failed to update ticket status"])) && tickets == old(tickets)
        else
          tickets == old(tickets)[id := t] && resp == Response(200, One(ToDict(t)))
    {
      if !session.IsAdmin() {
        return Response(403, Errors(["Only admins can update ticket status"]));
      }
      if id !in tickets {
        return NOT_FOUND;
      }
      if body == None || "status" !in body.value {
        return Response(400, Errors(["Status is required"]));
      }
      var newStatus := body.value["status"];
      if newStatus !in ValidStatuses() {
        return Response(400, Errors([StatusError()]));
      }
      if commitFails {
        return Response(500, Errors(["Failed to update ticket status"]));
      }
      var ticket := tickets[id].(status := newStatus, updatedAt := Some(now));
      tickets := tickets[id := ticket];
      resp := Response(200, One(ToDict(ticket)));
    }

    /** `delete_ticket`: no role check. A missing id gives 404; otherwise
        exactly that row is removed, unless the commit fails (500). */
    method DeleteTicket(id: int, commitFails: bool) returns (resp: Response)
      requires Valid()
      modifies this
      ensures Valid() && nextId == old(nextId)
      ensures AssignmentsKept(old(tickets), tickets)
      ensures id !in old(tickets) ==> resp == NOT_FOUND && tickets == old(tickets)
      ensures id in old(tickets) && commitFails ==>
        resp == Response(500, Errors(["Failed to delete ticket"])) && tickets == old(tickets)
      ensures id in old(tickets) && !commitFails ==>
        resp == Response(200, Notice("Ticket deleted successfully")) && tickets == old(tickets) - {id}
    {
      if id !in tickets {
        return NOT_FOUND;
      }
      if commitFails {
        return Response(500, Errors(["Failed to delete ticket"]));
      }
      tickets := tickets - {id};
      resp := Response(200, Notice("Ticket deleted successfully"));
    }
  }
}
