/** The Ticket record of models.py: its columns and their defaults, the two
    fixed enumerations, and the JSON shape produced by `to_dict`. */
module Models {
  import opened Wrappers

  /** A reading of the abstract clock that stands for `datetime.utcnow()`. */
  type Time = int

  /** One row of the tickets table. Only `assigned_admin` and the two
      timestamps may be NULL; every other descriptive column is required. */
  datatype Ticket = Ticket(
    id: int,
    title: string,
    description: string,
    priority: string,
    status: string,
    reporterName: string,
    assignedAdmin: Option<string>,
    createdAt: Option<Time>,
    updatedAt: Option<Time>)

  /** Column default of `status`. */
  const DEFAULT_STATUS: string := "open"
  /** Column default of `priority`. */
  const DEFAULT_PRIORITY: string := "medium"

  predicate Distinct(xs: seq<string>) {
    forall i, j :: 0 <= i < j < |xs| ==> xs[i] != xs[j]
  }

  /** `Ticket.valid_statuses()`: three distinct statuses, the default among them. */
  function ValidStatuses(): (r: seq<string>)
    ensures |r| == 3 && Distinct(r)
    ensures DEFAULT_STATUS in r
  {
    ["open", "in_progress", "closed"]
  }

  /** `Ticket.valid_priorities()`: three distinct priorities, the default among them. */
  function ValidPriorities(): (r: seq<string>)
    ensures |r| == 3 && Distinct(r)
    ensures DEFAULT_PRIORITY in r
  {
    ["low", "medium", "high"]
  }

  /** Python's `sep.join(items)`. */
  function Join(items: seq<string>, sep: string): (r: string)
    ensures |items| == 0 ==> r == ""
    ensures |items| > 0 ==> items[0] <= r
  {
    if |items| == 0 then ""
    else if |items| == 1 then items[0]
    else items[0] + sep + Join(items[1..], sep)
  }

  /** The statuses as the status message lists them. */
  lemma StatusListText()
    ensures Join(ValidStatuses(), ", ") == "open, in_progress, closed"
  {
    assert Join(ValidStatuses()[2..], ", ") == "closed";
    assert Join(ValidStatuses()[1..], ", ") == "in_progress, closed";
  }

  /** The row built by `Ticket(title=…, description=…, priority=…, reporter_name=…)`
      and inserted at time `now`: columns that are not given take their defaults. */
  function NewTicket(id: int, title: string, description: string, priority: Option<string>,
                     reporterName: string, now: Time): (t: Ticket)
    ensures t.id == id && t.title == title && t.description == description
    ensures t.reporterName == reporterName
    ensures t.status == DEFAULT_STATUS && t.status in ValidStatuses()
    ensures t.priority == priority.GetOr(DEFAULT_PRIORITY)
    ensures t.assignedAdmin == None
    ensures t.createdAt == Some(now) && t.updatedAt == t.createdAt
  {
    Ticket(id, title, description, priority.GetOr(DEFAULT_PRIORITY), DEFAULT_STATUS,
           reporterName, None, Some(now), Some(now))
  }

  /** A JSON value as `jsonify` emits it for a ticket column; a timestamp
      stands for its ISO-8601 text. */
  datatype Json = Null | Int(i: int) | Str(s: string) | Timestamp(t: Time)

  /** The nine keys of `to_dict`. */
  const TICKET_FIELDS: set<string> :=
    {"id", "title", "description", "priority", "status", "reporter_name",
     "assigned_admin", "created_at", "updated_at"}

  function StrOrNull(s: Option<string>): Json {
    if s.Some? then Str(s.value) else Null
  }

  function TimeOrNull(t: Option<Time>): Json {
    if t.Some? then Timestamp(t.value) else Null
  }

  /** `Ticket.to_dict()`: exactly the nine fields, an absent value becoming
      null; nothing of the ticket is lost, as `FromDict` recovers it. */
  function ToDict(t: Ticket): (d: map<string, Json>)
    ensures d.Keys == TICKET_FIELDS
    ensures d["assigned_admin"] == Null <==> t.assignedAdmin == None
    ensures d["created_at"] == Null <==> t.createdAt == None
    ensures d["updated_at"] == Null <==> t.updatedAt == None
  {
    map[
      "id" := Int(t.id),
      "title" := Str(t.title),
      "description" := Str(t.description),
      "priority" := Str(t.priority),
      "status" := Str(t.status),
      "reporter_name" := Str(t.reporterName),
      "assigned_admin" := StrOrNull(t.assignedAdmin),
      "created_at" := TimeOrNull(t.createdAt),
      "updated_at" := TimeOrNull(t.updatedAt)
    ]
  }

  /** Reads a ticket back from its JSON shape; the inverse of `ToDict`. */
  function FromDict(d: map<string, Json>): Option<Ticket> {
    if && TICKET_FIELDS <= d.Keys
       && d["id"].Int? && d["title"].Str? && d["description"].Str?
       && d["priority"].Str? && d["status"].Str? && d["reporter_name"].Str?
       && (d["assigned_admin"].Null? || d["assigned_admin"].Str?)
       && (d["created_at"].Null? || d["created_at"].Timestamp?)
       && (d["updated_at"].Null? || d["updated_at"].Timestamp?)
    then
      Some(Ticket(
        d["id"].i, d["title"].s, d["description"].s, d["priority"].s, d["status"].s,
        d["reporter_name"].s,
        if d["assigned_admin"].Str? then Some(d["assigned_admin"].s) else None,
        if d["created_at"].Timestamp? then Some(d["created_at"].t) else None,
        if d["updated_at"].Timestamp? then Some(d["updated_at"].t) else None))
    else None
  }

  /** `to_dict` loses nothing: reading the dictionary back gives the ticket. */
  lemma ToDictRoundTrip(t: Ticket)
    ensures FromDict(ToDict(t)) == Some(t)
  {
  }
}
