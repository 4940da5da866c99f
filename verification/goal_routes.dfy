/** The admin API's goal routes: list, create and delete the goals stored
    on a container's record, and submit a re-count job for one goal. The
    container table is an input and every write is part of the answer;
    uuids are inputs too. */
module GoalRoutes {
  import opened Wrappers
  import opened Naming
  import opened GoalQuery
  import opened Permission
  import GoalResult
  import JsonData

  /** A goal as the container record keeps it: its display name and its
      definition. */
  datatype StoredGoal = StoredGoal(name: string, goal: Goal)

  /** A container record: its organisation and its goal list, if it has one. */
  datatype ContainerItem = ContainerItem(organization: string, goals: Option<seq<StoredGoal>>)

  type Table = map<string, ContainerItem>

  /** A route's answer: 404, or a value with the table after the request. */
  datatype Answer<T> = Missing | Done(value: T, table: Table)

  /** The record of `tid`, when there is one and it belongs to `org`; every
      route answers 404 otherwise. */
  function Owned(table: Table, org: string, tid: string): (c: Option<ContainerItem>)
    ensures c.Some? <==> tid in table && table[tid].organization == org
    ensures c.Some? ==> c.value == table[tid]
  {
    if tid in table && table[tid].organization == org then Some(table[tid]) else None
  }

  function GoalsOf(c: ContainerItem): seq<StoredGoal>
  {
    if c.goals.Some? then c.goals.value else []
  }

  // ---------------------------------------------------------------- list

  /** A listed goal with the key its result document is signed for. */
  datatype Listed = Listed(stored: StoredGoal, resultKey: string)

  /** The key the list signs a URL for: `prefix + name + '_' + id + '_goal_result.json'`. */
  function ListedKey(statPrefix: string, org: string, tid: string, id: string): string
  {
    statPrefix + OrgPrefix(org) + tid + "_" + id + "_goal_result.json"
  }

  /** The signed key is the very key the goal retriever writes the result to. */
  lemma ListedKeyIsResultKey(statPrefix: string, org: string, tid: string, id: string)
    ensures ListedKey(statPrefix, org, tid, id) == GoalResult.ResultKey(statPrefix, org, tid, id)
  {
  }

  /** `GET /`: every goal, in order, with its result key. */
  function ListGoals(table: Table, statPrefix: string, org: string, tid: string): (a: Answer<seq<Listed>>)
    ensures a.Missing? <==> Owned(table, org, tid).None?
    ensures a.Done? ==>
              var gs := GoalsOf(table[tid]);
              a.table == table && |a.value| == |gs| &&
              forall i :: 0 <= i < |gs| ==> (a.value[i].stored == gs[i] &&
                a.value[i].resultKey == GoalResult.ResultKey(statPrefix, org, tid, gs[i].goal.id))
  {
    match Owned(table, org, tid)
    case None => Missing
    case Some(c) =>
      var gs := GoalsOf(c);
      Done(seq(|gs|, i requires 0 <= i < |gs| => Listed(gs[i], ListedKey(statPrefix, org, tid, gs[i].goal.id))), table)
  }

  // ---------------------------------------------------------------- create

  /** A creation request. `path` and `label` are absent (`None`), null
      (`Some(None)`) or text; the match settings are absent or text. */
  datatype CreateBody = CreateBody(name: string, target: string, targetMatch: Option<string>,
                                   path: Option<Option<string>>, pathMatch: Option<string>,
                                   eventLabel: Option<Option<string>>, labelMatch: Option<string>)

  const DefaultMatch := "eq"

  /** The goal a request creates: the match settings default to `eq`, and
      path and label to null. */
  function NewGoal(body: CreateBody, id: string): (g: StoredGoal)
    ensures g.name == body.name && g.goal.id == id && g.goal.target == body.target
    ensures g.goal.targetMatch == body.targetMatch.GetOr(DefaultMatch)
    ensures g.goal.pathMatch == body.pathMatch.GetOr(DefaultMatch)
    ensures g.goal.labelMatch == body.labelMatch.GetOr(DefaultMatch)
    ensures g.goal.path == body.path.GetOr(None) && g.goal.eventLabel == body.eventLabel.GetOr(None)
  {
    StoredGoal(body.name, Goal(id, body.target,
      if body.targetMatch.Some? then body.targetMatch.value else DefaultMatch,
      if body.path.Some? then body.path.value else None,
      if body.pathMatch.Some? then body.pathMatch.value else DefaultMatch,
      if body.eventLabel.Some? then body.eventLabel.value else None,
      if body.labelMatch.Some? then body.labelMatch.value else DefaultMatch))
  }

  /** `POST /`: appends one goal, creating the list when there is none. */
  function CreateGoal(table: Table, org: string, tid: string, body: CreateBody, id: string): (a: Answer<StoredGoal>)
    ensures a.Missing? <==> Owned(table, org, tid).None?
    ensures a.Done? ==>
              && a.value == NewGoal(body, id)
              && a.table.Keys == table.Keys
              && a.table[tid] == table[tid].(goals := Some(GoalsOf(table[tid]) + [a.value]))
              && (forall t :: t in table && t != tid ==> a.table[t] == table[t])
  {
    match Owned(table, org, tid)
    case None => Missing
    case Some(c) =>
      var g := NewGoal(body, id);
      Done(g, table[tid := c.(goals := Some(GoalsOf(c) + [g]))])
  }

  // ---------------------------------------------------------------- delete

  /** Index of the first goal with the id, or `|gs|`. */
  function FindGoal(gs: seq<StoredGoal>, id: string): (i: nat)
    ensures i <= |gs|
    ensures i < |gs| ==> gs[i].goal.id == id
    ensures forall j :: 0 <= j < i ==> gs[j].goal.id != id
  {
    if gs == [] then 0
    else if gs[0].goal.id == id then 0
    else 1 + FindGoal(gs[1..], id)
  }

  /** `DELETE /{goal}`: removes the first goal with the id; 404 when the
      record has no list or no such goal. */
  function DeleteGoal(table: Table, org: string, tid: string, id: string): (a: Answer<()>)
    ensures Owned(table, org, tid).None? ==> a.Missing?
    ensures a.Done? ==> a.table.Keys == table.Keys && (forall t :: t in table && t != tid ==> a.table[t] == table[t])
  {
    match Owned(table, org, tid)
    case None => Missing
    case Some(c) =>
      if c.goals.None? then Missing
      else
        var gs := c.goals.value;
        var i := FindGoal(gs, id);
        if i == |gs| then Missing
        else Done((), table[tid := c.(goals := Some(JsonData.RemoveValue(gs, gs[i])))])
  }

  /** Delete answers 404 exactly when there is no such goal, and otherwise
      removes just the first goal with the id, keeping the others in order. */
  lemma DeleteSpec(table: Table, org: string, tid: string, id: string)
    requires Owned(table, org, tid).Some?
    ensures var a := DeleteGoal(table, org, tid, id);
            var gs := GoalsOf(table[tid]);
      && (a.Missing? <==> forall j :: 0 <= j < |gs| ==> gs[j].goal.id != id)
      && (a.Done? ==>
            var i := FindGoal(gs, id);
            i < |gs| && a.table[tid] == table[tid].(goals := Some(JsonData.RemoveAt(gs, i))))
  {
    var a := DeleteGoal(table, org, tid, id);
    var gs := GoalsOf(table[tid]);
    if a.Done? {
      var i := FindGoal(gs, id);
      forall j | 0 <= j < i ensures gs[j] != gs[i] { assert gs[j].goal.id != gs[i].goal.id; }
      JsonData.RemoveValueAt(gs, i);
    }
  }

  /** Deleting a goal just created under a fresh id gives back the goal
      list as it was. */
  lemma CreateThenDelete(table: Table, org: string, tid: string, body: CreateBody, id: string)
    requires Owned(table, org, tid).Some?
    requires forall g :: g in GoalsOf(table[tid]) ==> g.goal.id != id
    ensures var c := CreateGoal(table, org, tid, body, id);
            var d := DeleteGoal(c.table, org, tid, id);
      d.Done? && GoalsOf(d.table[tid]) == GoalsOf(table[tid])
  {
    var gs := GoalsOf(table[tid]);
    var c := CreateGoal(table, org, tid, body, id);
    var gs' := gs + [NewGoal(body, id)];
    assert GoalsOf(c.table[tid]) == gs';
    assert forall j :: 0 <= j < |gs| ==> gs'[j] == gs[j];
    assert gs'[|gs|].goal.id == id;
    assert FindGoal(gs', id) == |gs|;
    DeleteSpec(c.table, org, tid, id);
    assert JsonData.RemoveAt(gs', |gs|) == gs;
  }

  // ---------------------------------------------------------------- re-count job

  /** The dates a re-count covers. */
  datatype Range = Range(startdate: string, enddate: string)

  /** A batch job submission: its name, command and environment. */
  datatype Job = Job(name: string, command: seq<string>, environment: seq<(string, string)>)

  /** `POST /{goal}/update_requests`: one job for a known goal; nothing is
      written to the table. `jobUuid` names the job. */
  function UpdateRequests(table: Table, org: string, tid: string, id: string, body: Range, jobUuid: string): (a: Answer<Job>)
    ensures a.Done? ==> a.table == table
    ensures a.Done? <==> Owned(table, org, tid).Some? && exists g :: g in GoalsOf(table[tid]) && g.goal.id == id
    ensures a.Done? ==> (a.value.environment ==
              [("TID", tid), ("GOAL_ID", id), ("STARTDATE", body.startdate), ("ENDDATE", body.enddate)])
  {
    match Owned(table, org, tid)
    case None => Missing
    case Some(c) =>
      if c.goals.None? then Missing
      else
        var gs := c.goals.value;
        if FindGoal(gs, id) == |gs| then Missing
        else
          Done(Job("otm_data_retriever_" + tid + "_goal_term_" + jobUuid,
                   ["python", "otmplugins/otm-goal-plugin/goal_term.py"],
                   [("TID", tid), ("GOAL_ID", id), ("STARTDATE", body.startdate), ("ENDDATE", body.enddate)]),
               table)
  }

  // ---------------------------------------------------------------- routes

  /** The list route behind its read permission. */
  function ListRoute(rows: seq<RoleRow>, table: Table, statPrefix: string, org: string, tid: string): (o: Outcome<Answer<seq<Listed>>>)
    ensures o.Handled? <==> HasPermission(rows, org, "read")
  {
    OrgGate(rows, org, "read", Handled(ListGoals(table, statPrefix, org, tid)))
  }

  /** The create route: write permission first, then the body, then the
      container. */
  function CreateRoute(rows: seq<RoleRow>, table: Table, org: string, tid: string, body: Option<CreateBody>,
                       valid: CreateBody -> bool, id: string): (o: Outcome<Answer<StoredGoal>>)
    ensures !HasPermission(rows, org, "write") ==> o == Denied(Unauthorized)
    ensures HasPermission(rows, org, "write") && body.None? ==> o == Denied(BadRequest(false))
    ensures o.Handled? ==> body.Some? && valid(body.value) && o.answer == CreateGoal(table, org, tid, body.value, id)
  {
    OrgGate(rows, org, "write", BodyGate(body, valid, (b: CreateBody) => Handled(CreateGoal(table, org, tid, b, id))))
  }

  /** The delete route behind its write permission. */
  function DeleteRoute(rows: seq<RoleRow>, table: Table, org: string, tid: string, id: string): (o: Outcome<Answer<()>>)
    ensures o.Handled? <==> HasPermission(rows, org, "write")
  {
    OrgGate(rows, org, "write", Handled(DeleteGoal(table, org, tid, id)))
  }

  /** The re-count route: write permission, then the body, then the lookups. */
  function UpdateRequestsRoute(rows: seq<RoleRow>, table: Table, org: string, tid: string, id: string,
                               body: Option<Range>, valid: Range -> bool, jobUuid: string): (o: Outcome<Answer<Job>>)
    ensures !HasPermission(rows, org, "write") ==> o == Denied(Unauthorized)
    ensures HasPermission(rows, org, "write") && body.None? ==> o == Denied(BadRequest(false))
    ensures o.Handled? ==> body.Some? && valid(body.value) && o.answer == UpdateRequests(table, org, tid, id, body.value, jobUuid)
  {
    OrgGate(rows, org, "write", BodyGate(body, valid, (b: Range) => Handled(UpdateRequests(table, org, tid, id, b, jobUuid))))
  }

  /** A malformed body is refused before the container is looked up: even
      for an unknown container the answer is 400, not 404. */
  lemma BodyCheckedBeforeContainer(rows: seq<RoleRow>, table: Table, org: string, tid: string, id: string,
                                   valid: Range -> bool, jobUuid: string)
    requires HasPermission(rows, org, "write") && Owned(table, org, tid).None?
    ensures UpdateRequestsRoute(rows, table, org, tid, id, None, valid, jobUuid) == Denied(BadRequest(false))
    ensures forall b :: valid(b) ==> UpdateRequestsRoute(rows, table, org, tid, id, Some(b), valid, jobUuid) == Handled(Missing)
  {
  }
}
