/** The admin API's request guards: the role-table permission test, the
    decorators that answer 401 before a handler runs, and the JSON-body
    guard that answers 400. Stacked decorators run outermost first, so a
    route is a nesting of these guards around its handler's outcome. */
module Permission {
  import opened Wrappers
  import opened Naming

  const Admin := "admin"

  /** One row of the role table for the calling user. */
  datatype RoleRow = RoleRow(organization: string, roles: seq<string>)

  /** A row that settles the question: a root admin row, or a row of the
      organisation holding the role. */
  predicate Grants(r: RoleRow, org: string, role: string)
  {
    (r.organization == RootOrg && Admin in r.roles) || (r.organization == org && role in r.roles)
  }

  /** `has_permission`: the caller's rows are scanned in order and the first
      root admin row, or the first row of `org` holding `role`, grants. */
  function HasPermission(rows: seq<RoleRow>, org: string, role: string): (b: bool)
    ensures b <==> exists i :: 0 <= i < |rows| && Grants(rows[i], org, role)
  {
    if rows == [] then false
    else if rows[0].organization == RootOrg && Admin in rows[0].roles then true
    else if rows[0].organization == org && role in rows[0].roles then true
    else
      var b := HasPermission(rows[1..], org, role);
      assert forall i :: 0 <= i < |rows| - 1 ==> rows[1..][i] == rows[i + 1];
      b
  }

  /** A root admin may do anything anywhere. */
  lemma RootAdminGrantsAll(rows: seq<RoleRow>, org: string, role: string, i: nat)
    requires i < |rows| && rows[i].organization == RootOrg && Admin in rows[i].roles
    ensures HasPermission(rows, org, role)
  {
    assert Grants(rows[i], org, role);
  }

  /** Roles are not ordered: an organisation's admin holds no other role of it. */
  lemma OrgAdminIsNotReader(org: string, role: string)
    requires org != RootOrg && role != Admin
    ensures !HasPermission([RoleRow(org, [Admin])], org, role)
  {
    assert !Grants(RoleRow(org, [Admin]), org, role);
  }

  /** Why a guard stopped a request: 401, or 400 (with `error_fields` when
      the schema rejected the body). */
  datatype Denial = Unauthorized | BadRequest(withFields: bool)

  /** A guarded request: stopped by a guard, or the handler's answer. */
  datatype Outcome<R> = Denied(denial: Denial) | Handled(answer: R)

  /** `check_org_permission(role)`: 401 unless the caller holds `role` in `org`. */
  function OrgGate<R>(rows: seq<RoleRow>, org: string, role: string, inner: Outcome<R>): (o: Outcome<R>)
    ensures HasPermission(rows, org, role) ==> o == inner
    ensures !HasPermission(rows, org, role) ==> o == Denied(Unauthorized)
  {
    if !HasPermission(rows, org, role) then Denied(Unauthorized) else inner
  }

  /** `check_root_admin()`: the permission test for (`root`, `admin`). */
  function RootGate<R>(rows: seq<RoleRow>, inner: Outcome<R>): (o: Outcome<R>)
    ensures o == OrgGate(rows, RootOrg, Admin, inner)
  {
    if !HasPermission(rows, RootOrg, Admin) then Denied(Unauthorized) else inner
  }

  /** The root gate lets exactly the callers with a root admin row through. */
  lemma RootGateIff<R>(rows: seq<RoleRow>, inner: Outcome<R>)
    requires inner.Handled?
    ensures RootGate(rows, inner) == inner <==>
              exists i :: 0 <= i < |rows| && rows[i].organization == RootOrg && Admin in rows[i].roles
  {
    if RootGate(rows, inner) == inner {
      var i :| 0 <= i < |rows| && Grants(rows[i], RootOrg, Admin);
      assert rows[i].organization == RootOrg && Admin in rows[i].roles;
    }
  }

  /** `check_json_body(schema)`: a missing body is refused before the
      schema is consulted; a body the schema rejects is refused with its
      error fields; otherwise the handler runs on the body. */
  function BodyGate<B, R>(body: Option<B>, valid: B -> bool, handler: B -> Outcome<R>): (o: Outcome<R>)
    ensures body.None? ==> o == Denied(BadRequest(false))
    ensures body.Some? && !valid(body.value) ==> o == Denied(BadRequest(true))
    ensures body.Some? && valid(body.value) ==> o == handler(body.value)
  {
    match body
    case None => Denied(BadRequest(false))
    case Some(b) => if valid(b) then handler(b) else Denied(BadRequest(true))
  }
}
