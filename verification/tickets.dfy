/** `TicketService`: an in-memory list of tickets that are created from
    issue reports, augmented with knowledge-base matches, appended to and
    resolved. Every operation is a function from the current list to the
    new list and the operation's return value. */
module Tickets {
  import opened Seqs
  import opened Text
  import opened Scoring
  import opened KnowledgeSearch

  datatype Status = Open | Resolved

  /** Whoever a ticket is assigned to. */
  datatype Handler = Handler(id: string, name: string, team: string)

  /** Every ticket is assigned to the automated responder. */
  const AiAgent: Handler := Handler("ai-oncall-001", "AI Oncall Agent", "Automated Response")

  /** An issue report. The source reads all four keys directly, so a report
      without them never reaches the tracker. */
  datatype Issue = Issue(severity: string, issueType: string, service: string, description: string)

  /** A stored ticket. `lists` holds the list-valued fields that
      `append_to_ticket` writes to, starting with `resolution_output`. */
  datatype Ticket = Ticket(
    id: string,
    title: string,
    description: string,
    status: Status,
    priority: string,
    assignedTo: Handler,
    issue: Issue,
    knowledgeBase: seq<Hit>,
    lists: map<string, seq<string>>)

  const ResolutionOutput: string := "resolution_output"

  /** The keys of a ticket record that are not free-form lists. */
  const RecordFields: set<string> :=
    {"id", "title", "description", "status", "created_at", "priority",
     "assigned_to", "issue", "knowledge_base"}

  const TicketPrefix: string := "TICKET-"

  // ---------------------------------------------------------------------
  // Severity to priority

  const PriorityMap: map<string, string> :=
    map["Critical" := "P0 - Immediate",
        "High" := "P1 - High",
        "Medium" := "P2 - Medium",
        "Low" := "P3 - Low"]

  const DefaultPriority: string := "P2 - Medium"

  /** `_map_severity_to_priority`: an exact, case-sensitive table lookup
      that falls back to medium priority. */
  function Priority(severity: string): (p: string)
    ensures p == "P0 - Immediate" <==> severity == "Critical"
    ensures p == "P1 - High" <==> severity == "High"
    ensures p == "P3 - Low" <==> severity == "Low"
    ensures p == "P2 - Medium" <==> severity !in {"Critical", "High", "Low"}
  {
    if severity in PriorityMap then PriorityMap[severity] else DefaultPriority
  }

  // ---------------------------------------------------------------------
  // Lookup

  predicate HasId(ts: seq<Ticket>, id: string) {
    exists i :: 0 <= i < |ts| && ts[i].id == id
  }

  /** The position of the first ticket at or after `k` with the given id. */
  function FirstIndexFrom(ts: seq<Ticket>, id: string, k: nat): (r: Option<nat>)
    requires k <= |ts|
    ensures r.Some? ==> k <= r.value < |ts| && ts[r.value].id == id
                        && forall j :: k <= j < r.value ==> ts[j].id != id
    ensures r.None? ==> forall j :: k <= j < |ts| ==> ts[j].id != id
    decreases |ts| - k
  {
    if k == |ts| then None
    else if ts[k].id == id then Some(k)
    else FirstIndexFrom(ts, id, k + 1)
  }

  /** The position of the first ticket with the given id. */
  function FirstIndex(ts: seq<Ticket>, id: string): (r: Option<nat>)
    ensures r.Some? ==> r.value < |ts| && ts[r.value].id == id
                        && forall j :: 0 <= j < r.value ==> ts[j].id != id
    ensures r.None? <==> !HasId(ts, id)
  {
    FirstIndexFrom(ts, id, 0)
  }

  /** `get_ticket`: the first ticket with the given id, if any. */
  function GetTicket(ts: seq<Ticket>, id: string): (r: Option<Ticket>)
    ensures r.Some? <==> HasId(ts, id)
    ensures r.Some? ==>
              && r.value.id == id
              && exists i :: 0 <= i < |ts| && ts[i] == r.value && forall j :: 0 <= j < i ==> ts[j].id != id
  {
    match FirstIndex(ts, id)
    case None => None
    case Some(i) => Some(ts[i])
  }

  /** `get_tickets`: the stored list, in insertion order. */
  function GetTickets(ts: seq<Ticket>): seq<Ticket> {
    ts
  }

  // ---------------------------------------------------------------------
  // Creation

  /** The ticket `create_ticket` builds for an issue; `token` stands for the
      first eight characters of a random UUID. */
  function NewTicket(issue: Issue, token: string): Ticket {
    Ticket(
      TicketPrefix + token,
      issue.severity + " " + issue.issueType + " in " + issue.service,
      issue.description,
      Open,
      Priority(issue.severity),
      AiAgent,
      issue,
      [],
      map[ResolutionOutput := []])
  }

  /** `create_ticket`: build a ticket and append it to the list. */
  function CreateTicket(ts: seq<Ticket>, issue: Issue, token: string): (r: (seq<Ticket>, Ticket))
    ensures |r.0| == |ts| + 1 && r.0[..|ts|] == ts && r.0[|ts|] == r.1
    ensures r.1.id == TicketPrefix + token
    ensures r.1.title == issue.severity + " " + issue.issueType + " in " + issue.service
    ensures r.1.description == issue.description && r.1.issue == issue
    ensures r.1.status == Open && r.1.priority == Priority(issue.severity)
    ensures r.1.assignedTo == AiAgent
    ensures r.1.knowledgeBase == [] && r.1.lists == map[ResolutionOutput := []]
  {
    var t := NewTicket(issue, token);
    (ts + [t], t)
  }

  predicate UniqueIds(ts: seq<Ticket>) {
    forall i, j :: 0 <= i < j < |ts| ==> ts[i].id != ts[j].id
  }

  /** A ticket created with an unused id is found by its id afterwards, and
      ids stay unique. */
  lemma CreateWithFreshId(ts: seq<Ticket>, issue: Issue, token: string)
    requires !HasId(ts, TicketPrefix + token)
    ensures GetTicket(CreateTicket(ts, issue, token).0, TicketPrefix + token)
              == Some(CreateTicket(ts, issue, token).1)
    ensures UniqueIds(ts) ==> UniqueIds(CreateTicket(ts, issue, token).0)
  {
    var r := CreateTicket(ts, issue, token);
    assert r.0[|ts|].id == r.1.id;
    assert forall j :: 0 <= j < |ts| ==> r.0[j] == ts[j];
  }

  /** `get_tickets` lists tickets in the order they were created. */
  lemma ListedInCreationOrder(ts: seq<Ticket>, a: Issue, ta: string, b: Issue, tb: string)
    ensures var (ts1, t1) := CreateTicket(ts, a, ta);
            var (ts2, t2) := CreateTicket(ts1, b, tb);
            GetTickets(ts2) == ts + [t1, t2]
  {
    var (ts1, t1) := CreateTicket(ts, a, ta);
    assert ts1 == ts + [t1];
  }

  /** The query a ticket presents to the knowledge-base search: title,
      description, and the issue's type and service. */
  function QueryOf(t: Ticket): Query {
    Query(Some(t.title), Some(t.description),
          Some(QueryIssue(Some(t.issue.issueType), Some(t.issue.service))))
  }

  /** The words a freshly created ticket offers the search: those of the
      severity, issue type, the word "in" and the service (from the title),
      then those of the description, then the issue type and the service
      once more. The issue type and service words are thus counted twice. */
  lemma CreatedTicketTerms(ts: seq<Ticket>, issue: Issue, token: string)
    ensures var t := CreateTicket(ts, issue, token).1;
            ExtractTerms(QueryOf(t)) ==
              Words(Lower(issue.severity)) + Words(Lower(issue.issueType)) + ["in"]
              + Words(Lower(issue.service)) + Words(Lower(issue.description))
              + Words(Lower(issue.issueType)) + Words(Lower(issue.service))
  {
    var t := CreateTicket(ts, issue, token).1;
    TitleWords(issue.severity, issue.issueType, issue.service);
    assert ExtractTerms(QueryOf(t)) ==
      FieldWords(Some(t.title)) + FieldWords(Some(issue.description))
      + (FieldWords(Some(issue.issueType)) + FieldWords(Some(issue.service)));
  }

  /** The words of a ticket title `severity + " " + issue_type + " in " +
      service`. */
  lemma TitleWords(severity: string, issueType: string, service: string)
    ensures Words(Lower(severity + " " + issueType + " in " + service))
              == Words(Lower(severity)) + Words(Lower(issueType)) + ["in"] + Words(Lower(service))
  {
    TitleLower(severity, issueType, service);
    TitleShapeWords(Lower(severity), Lower(issueType), Lower(service));
  }

  lemma TitleLower(severity: string, issueType: string, service: string)
    ensures Lower(severity + " " + issueType + " in " + service)
              == Lower(severity) + " " + Lower(issueType) + " in " + Lower(service)
  {
    LowerAppend(severity + " " + issueType + " in ", service);
    LowerAppend(severity + " " + issueType, " in ");
    LowerAppend(severity + " ", issueType);
    LowerAppend(severity, " ");
    LowerOfLowerFree(" ");
    LowerOfLowerFree(" in ");
  }

  lemma TitleShapeWords(a: string, b: string, c: string)
    ensures Words(a + " " + b + " in " + c) == Words(a) + Words(b) + ["in"] + Words(c)
  {
    TitleShape(a, b, c);
    WordsSplitAtSpace(a, ' ', b + [' '] + ("in" + [' '] + c));
    WordsSplitAtSpace(b, ' ', "in" + [' '] + c);
    WordsSplitAtSpace("in", ' ', c);
    WordsOfIn();
  }

  lemma TitleShape(a: string, b: string, c: string)
    ensures a + " " + b + " in " + c == a + [' '] + (b + [' '] + ("in" + [' '] + c))
  {
  }

  lemma WordsOfIn()
    ensures Words("in") == ["in"]
  {
    WordLenOfWord("in", []);
    assert "in" + [] == "in";
    assert "in"[2..] == [];
  }

  // ---------------------------------------------------------------------
  // Augmentation

  /** `augment_ticket_with_kb`: search the knowledge base with the given
      ticket and store the matches on the first stored ticket with the same
      id, returning that ticket; return the input unchanged when no stored
      ticket has its id, and nothing when there is no input. */
  function AugmentTicketWithKb(ts: seq<Ticket>, input: Option<Ticket>, kb: seq<Entry>, pick: nat)
    : (r: (seq<Ticket>, Option<Ticket>))
    requires kb != [] ==> pick < |kb|
    ensures input.None? ==> r == (ts, None)
    ensures input.Some? && !HasId(ts, input.value.id) ==> r == (ts, input)
    ensures |r.0| == |ts|
    ensures input.Some? && HasId(ts, input.value.id) ==>
              var i := FirstIndex(ts, input.value.id).value;
              && r.0[i] == ts[i].(knowledgeBase := SearchKnowledgeBase(kb, QueryOf(input.value), pick))
              && |r.0[i].knowledgeBase| <= MaxResults
              && (forall j :: 0 <= j < |ts| && j != i ==> r.0[j] == ts[j])
              && r.1 == Some(r.0[i])
  {
    match input
    case None => (ts, None)
    case Some(t) =>
      var found := SearchKnowledgeBase(kb, QueryOf(t), pick);
      match FirstIndex(ts, t.id)
      case None => (ts, input)
      case Some(i) =>
        var updated := ts[i].(knowledgeBase := found);
        (ts[i := updated], Some(updated))
  }

  // ---------------------------------------------------------------------
  // Appending and resolving

  /** The list `field` of a ticket, or the empty list when it has none. */
  function ListOrEmpty(t: Ticket, field: string): seq<string> {
    if field in t.lists then t.lists[field] else []
  }

  /** `append_to_ticket`: append `content` to the list `field` of the first
      ticket with the given id, creating the list when missing; report
      whether the ticket was found. */
  function AppendToTicket(ts: seq<Ticket>, id: string, content: string, field: string)
    : (r: (seq<Ticket>, bool))
    requires field !in RecordFields
    ensures r.1 <==> GetTicket(ts, id).Some?
    ensures !r.1 ==> r.0 == ts
    ensures r.1 ==>
              var i := FirstIndex(ts, id).value;
              && |r.0| == |ts|
              && field in r.0[i].lists
              && r.0[i].lists[field] == ListOrEmpty(ts[i], field) + [content]
              && r.0[i].lists.Keys == ts[i].lists.Keys + {field}
              && (forall f :: f in ts[i].lists && f != field ==> r.0[i].lists[f] == ts[i].lists[f])
              && r.0[i] == ts[i].(lists := r.0[i].lists)
              && (forall j :: 0 <= j < |ts| && j != i ==> r.0[j] == ts[j])
  {
    match FirstIndex(ts, id)
    case None => (ts, false)
    case Some(i) =>
      var t := ts[i];
      (ts[i := t.(lists := t.lists[field := ListOrEmpty(t, field) + [content]])], true)
  }

  /** `mark_ticket_resolved`: set the status of the first ticket with the
      given id to resolved; report whether the ticket was found. */
  function MarkTicketResolved(ts: seq<Ticket>, id: string): (r: (seq<Ticket>, bool))
    ensures r.1 <==> GetTicket(ts, id).Some?
    ensures !r.1 ==> r.0 == ts
    ensures r.1 ==>
              var i := FirstIndex(ts, id).value;
              && |r.0| == |ts|
              && r.0[i] == ts[i].(status := Resolved)
              && (forall j :: 0 <= j < |ts| && j != i ==> r.0[j] == ts[j])
  {
    match FirstIndex(ts, id)
    case None => (ts, false)
    case Some(i) => (ts[i := ts[i].(status := Resolved)], true)
  }

  // ---------------------------------------------------------------------
  // Properties of the operations

  /** Resolving is idempotent: a second call finds the ticket again and
      changes nothing. */
  lemma MarkResolvedIdempotent(ts: seq<Ticket>, id: string)
    ensures var (ts1, found1) := MarkTicketResolved(ts, id);
            var (ts2, found2) := MarkTicketResolved(ts1, id);
            ts2 == ts1 && found2 == found1
  {
    var (ts1, found1) := MarkTicketResolved(ts, id);
    if found1 {
      var i := FirstIndex(ts, id).value;
      assert FirstIndex(ts1, id) == Some(i) by {
        assert forall j :: 0 <= j < i ==> ts1[j] == ts[j];
      }
      assert ts1[i := ts1[i].(status := Resolved)] == ts1;
    }
  }

  /** Two appends to the same field accumulate in call order. */
  lemma AppendTwice(ts: seq<Ticket>, id: string, a: string, b: string, field: string)
    requires field !in RecordFields
    requires HasId(ts, id)
    ensures var (ts1, _) := AppendToTicket(ts, id, a, field);
            var (ts2, _) := AppendToTicket(ts1, id, b, field);
            var i := FirstIndex(ts, id).value;
            ts2[i].lists[field] == ListOrEmpty(ts[i], field) + [a, b]
  {
    var (ts1, _) := AppendToTicket(ts, id, a, field);
    var i := FirstIndex(ts, id).value;
    assert FirstIndex(ts1, id) == Some(i) by {
      assert forall j :: 0 <= j < i ==> ts1[j] == ts[j];
    }
  }

  /** One tracker operation, as a caller issues it. */
  datatype Op =
    | Create(issue: Issue, token: string)
    | Augment(ticket: Option<Ticket>, pick: nat)
    | Append(id: string, content: string, field: string)
    | Resolve(id: string)

  /** What the source requires of an operation: a pick within the knowledge
      base, and a list field that is not one of the record's own keys. */
  predicate ValidOp(op: Op, kb: seq<Entry>) {
    match op
    case Augment(_, pick) => kb != [] ==> pick < |kb|
    case Append(_, _, field) => field !in RecordFields
    case _ => true
  }

  /** The ticket list after one operation. */
  function Step(ts: seq<Ticket>, op: Op, kb: seq<Entry>): seq<Ticket>
    requires ValidOp(op, kb)
  {
    match op
    case Create(issue, token) => CreateTicket(ts, issue, token).0
    case Augment(t, pick) => AugmentTicketWithKb(ts, t, kb, pick).0
    case Append(id, content, field) => AppendToTicket(ts, id, content, field).0
    case Resolve(id) => MarkTicketResolved(ts, id).0
  }

  /** One operation keeps every existing ticket at its place with its id,
      never reopens a resolved ticket, and only `create_ticket` adds a
      ticket. */
  lemma StepFrame(ts: seq<Ticket>, op: Op, kb: seq<Entry>)
    requires ValidOp(op, kb)
    ensures |Step(ts, op, kb)| == if op.Create? then |ts| + 1 else |ts|
    ensures forall j :: 0 <= j < |ts| ==>
              && Step(ts, op, kb)[j].id == ts[j].id
              && (ts[j].status == Resolved ==> Step(ts, op, kb)[j].status == Resolved)
  {
  }

  function Run(ts: seq<Ticket>, ops: seq<Op>, kb: seq<Entry>): seq<Ticket>
    requires forall k :: 0 <= k < |ops| ==> ValidOp(ops[k], kb)
    decreases |ops|
  {
    if ops == [] then ts else Run(Step(ts, ops[0], kb), ops[1..], kb)
  }

  /** Every ticket created during the run gets an id not already in use. */
  predicate FreshCreates(ts: seq<Ticket>, ops: seq<Op>, kb: seq<Entry>)
    requires forall k :: 0 <= k < |ops| ==> ValidOp(ops[k], kb)
    decreases |ops|
  {
    ops == [] ||
      ((ops[0].Create? ==> !HasId(ts, TicketPrefix + ops[0].token))
       && FreshCreates(Step(ts, ops[0], kb), ops[1..], kb))
  }

  /** Over any sequence of operations, tickets are never removed or moved,
      keep their ids, and a resolved ticket stays resolved; when every
      created id is fresh, ids stay unique. */
  lemma {:induction false} RunInvariants(ts: seq<Ticket>, ops: seq<Op>, kb: seq<Entry>)
    requires forall k :: 0 <= k < |ops| ==> ValidOp(ops[k], kb)
    ensures |Run(ts, ops, kb)| >= |ts|
    ensures forall j :: 0 <= j < |ts| ==>
              && Run(ts, ops, kb)[j].id == ts[j].id
              && (ts[j].status == Resolved ==> Run(ts, ops, kb)[j].status == Resolved)
    ensures UniqueIds(ts) && FreshCreates(ts, ops, kb) ==> UniqueIds(Run(ts, ops, kb))
    decreases |ops|
  {
    if ops != [] {
      var next := Step(ts, ops[0], kb);
      StepFrame(ts, ops[0], kb);
      RunInvariants(next, ops[1..], kb);
      if UniqueIds(ts) && FreshCreates(ts, ops, kb) {
        StepKeepsUniqueIds(ts, ops[0], kb);
      }
    }
  }

  lemma StepKeepsUniqueIds(ts: seq<Ticket>, op: Op, kb: seq<Entry>)
    requires ValidOp(op, kb)
    requires UniqueIds(ts)
    requires op.Create? ==> !HasId(ts, TicketPrefix + op.token)
    ensures UniqueIds(Step(ts, op, kb))
  {
    StepFrame(ts, op, kb);
    if op.Create? {
      CreateWithFreshId(ts, op.issue, op.token);
    }
  }
}
