/** The admin API's user, organisation and membership tables as one small
    state machine: the user table, the organisation table, the role table
    keyed by (username, organisation), and the identity pool that the user
    routes create and delete accounts in. Each route maps a store to an
    answer (HTTP status and the store after its writes). */
module AdminUsers {
  import opened Wrappers
  import Permission
  import Naming

  datatype User = User(email: string, createdAt: int, updatedAt: int)

  datatype Org = Org(createdAt: int, updatedAt: int)

  /** A role-table key: (username, organization). */
  type RoleKey = (string, string)

  /** The tables. `pool` is the identity pool: each account's `email`
      attribute, `None` for an account without one. */
  datatype Store = Store(users: map<string, User>, orgs: map<string, Org>,
                         roles: map<RoleKey, seq<string>>, pool: map<string, Option<string>>)

  /** A route's answer: its status (500 for an uncaught exception) and the
      store after the writes made before it answered. */
  datatype Answer = Answer(code: nat, store: Store)

  // ---------------------------------------------------------------- user response

  /** The `orgs` of a user response: each role row of the user, as its
      organisation's roles. */
  function OrgsOf(s: Store, username: string): (m: map<string, seq<string>>)
    ensures forall org :: org in m <==> (username, org) in s.roles
    ensures forall org :: org in m ==> m[org] == s.roles[(username, org)]
  {
    var m := map k | k in s.roles && k.0 == username :: k.1 := s.roles[k];
    assert forall org :: (username, org) in s.roles ==> org in m;
    m
  }

  datatype UserView = UserView(username: string, email: string, createdAt: int, updatedAt: int,
                               orgs: map<string, seq<string>>)

  /** What `get_user_response` gives: the 404 response for an account
      unknown to the pool, an exception for an account without an email
      attribute, or the user with its memberships. */
  datatype UserLookup = NoUser | LookupRaised | View(view: UserView)

  /** `get_user_response`: the stored user, else the pool account copied
      into the user table with both stamps `now`. */
  function GetUserResponse(s: Store, username: string, now: int): (r: (UserLookup, Store))
    ensures username in s.users ==> r.1 == s && r.0.View? && r.0.view.email == s.users[username].email
    ensures username !in s.users ==>
              (r.0.NoUser? <==> username !in s.pool) &&
              (r.0.LookupRaised? <==> username in s.pool && s.pool[username].None?)
    ensures !r.0.View? ==> r.1 == s
    ensures r.0.View? ==>
              username in r.1.users && r.1 == s.(users := s.users[username := r.1.users[username]]) &&
              r.0.view.username == username && r.0.view.email == r.1.users[username].email &&
              r.0.view.createdAt == r.1.users[username].createdAt &&
              r.0.view.updatedAt == r.1.users[username].updatedAt &&
              r.0.view.orgs == OrgsOf(s, username)
    ensures r.0.View? && username !in s.users ==> r.1.users[username] == User(s.pool[username].value, now, now)
  {
    if username in s.users then
      var u := s.users[username];
      (View(UserView(username, u.email, u.createdAt, u.updatedAt, OrgsOf(s, username))), s)
    else if username !in s.pool then (NoUser, s)
    else match s.pool[username]
      case None => (LookupRaised, s)
      case Some(email) =>
        var s' := s.(users := s.users[username := User(email, now, now)]);
        (View(UserView(username, email, now, now, OrgsOf(s, username))), s')
  }

  /** Reading a user twice gives the same view, and the second read writes
      nothing. */
  lemma GetUserStable(s: Store, username: string, now: int, later: int)
    requires GetUserResponse(s, username, now).0.View?
    ensures var (v, s') := GetUserResponse(s, username, now);
      GetUserResponse(s', username, later) == (v, s')
  {
    var (v, s') := GetUserResponse(s, username, now);
    assert OrgsOf(s', username) == OrgsOf(s, username);
  }

  // ---------------------------------------------------------------- users

  /** `create_new_user`: 400 for a username already in the user table; the
      pool refuses an account it already has (an exception); otherwise the
      account and the user row are created with both stamps `now`. */
  function CreateNewUser(s: Store, username: string, email: string, now: int): (a: Answer)
    ensures username in s.users ==> a == Answer(400, s)
    ensures username !in s.users && username in s.pool ==> a == Answer(500, s)
    ensures a.code == 200 <==> username !in s.users && username !in s.pool
    ensures a.code == 200 ==>
              a.store.users == s.users[username := User(email, now, now)] &&
              a.store.pool == s.pool[username := Some(email)] &&
              a.store.orgs == s.orgs && a.store.roles == s.roles
  {
    if username in s.users then Answer(400, s)
    else if username in s.pool then Answer(500, s)
    else Answer(200, s.(users := s.users[username := User(email, now, now)],
                        pool := s.pool[username := Some(email)]))
  }

  /** A created user reads back with the given email, no memberships, and
      equal stamps. */
  lemma CreateThenGet(s: Store, username: string, email: string, now: int, later: int)
    requires CreateNewUser(s, username, email, now).code == 200
    requires MembersKnown(s)
    ensures var s' := CreateNewUser(s, username, email, now).store;
      GetUserResponse(s', username, later) ==
        (View(UserView(username, email, now, now, map[])), s')
  {
    var s' := CreateNewUser(s, username, email, now).store;
    assert OrgsOf(s', username) == map[];
  }

  /** The role table without any row of `username`. */
  function RolesWithout(roles: map<RoleKey, seq<string>>, username: string): (r: map<RoleKey, seq<string>>)
    ensures forall k :: k in r <==> k in roles && k.0 != username
    ensures forall k :: k in r ==> r[k] == roles[k]
  {
    map k | k in roles && k.0 != username :: roles[k]
  }

  /** `delete_user` as written: the "not found" branch tests the user
      response for falsehood, but that response is a dict or a 404
      response object and is never false, so an unknown user reaches the
      deletes and the pool's refusal. */
  function DeleteUserAsWritten(s: Store, username: string, now: int): (a: Answer)
  {
    var (look, s1) := GetUserResponse(s, username, now);
    if look.LookupRaised? then Answer(500, s)
    else
      var s2 := s1.(roles := RolesWithout(s1.roles, username), users := s1.users - {username});
      if username !in s2.pool then Answer(500, s2)
      else Answer(204, s2.(pool := s2.pool - {username}))
  }

  /** `delete_user` answering 400 for a user neither table nor pool knows,
      before any write. */
  function DeleteUser(s: Store, username: string, now: int): (a: Answer)
    ensures username !in s.users && username !in s.pool ==> a == Answer(400, s)
    ensures a.code == 204 ==>
              a.store.roles == RolesWithout(s.roles, username) &&
              a.store.users == s.users - {username} &&
              a.store.pool == s.pool - {username} && a.store.orgs == s.orgs
    ensures a.code == 204 <==> username in s.pool && (username in s.users || s.pool[username].Some?)
  {
    var (look, _) := GetUserResponse(s, username, now);
    if look.NoUser? then Answer(400, s) else DeleteUserAsWritten(s, username, now)
  }

  /** The two agree on every user the tables or the pool know. */
  lemma DeleteUserAgrees(s: Store, username: string, now: int)
    requires username in s.users || username in s.pool
    ensures DeleteUser(s, username, now) == DeleteUserAsWritten(s, username, now)
  {
  }

  /** As written, deleting an unknown user fails with an exception (after
      dropping any role rows left under that name) instead of answering
      400 without a write. */
  lemma DeleteUnknownUserRaises(s: Store, username: string, now: int)
    requires username !in s.users && username !in s.pool
    ensures DeleteUserAsWritten(s, username, now).code == 500
    ensures DeleteUserAsWritten(s, username, now).store.roles == RolesWithout(s.roles, username)
    ensures DeleteUser(s, username, now) == Answer(400, s)
  {
  }

  /** After a completed delete, no table mentions the user and every other
      row is as before. */
  lemma DeleteUserClears(s: Store, username: string, now: int)
    requires DeleteUser(s, username, now).code == 204
    ensures var t := DeleteUser(s, username, now).store;
      username !in t.users && username !in t.pool &&
      (forall k :: k in t.roles ==> k.0 != username) &&
      (forall k :: k in s.roles && k.0 != username ==> k in t.roles && t.roles[k] == s.roles[k])
  {
  }

  // ---------------------------------------------------------------- organisations

  /** `create_organization`: 201 with the new record, or 400 for a taken name. */
  function CreateOrganization(s: Store, name: string, now: int): (a: Answer)
    ensures name in s.orgs ==> a == Answer(400, s)
    ensures name !in s.orgs ==>
              a == Answer(201, s.(orgs := s.orgs[name := Org(now, now)]))
  {
    if name in s.orgs then Answer(400, s) else Answer(201, s.(orgs := s.orgs[name := Org(now, now)]))
  }

  /** `organization_info`: the record, or 404. */
  function OrganizationInfo(s: Store, org: string): (r: Option<Org>)
    ensures r.Some? <==> org in s.orgs
    ensures r.Some? ==> r.value == s.orgs[org]
  {
    if org in s.orgs then Some(s.orgs[org]) else None
  }

  /** Creating an organisation is not repeatable: the second attempt is
      refused and changes nothing. */
  lemma CreateOrganizationOnce(s: Store, name: string, now: int, later: int)
    requires CreateOrganization(s, name, now).code == 201
    ensures var s' := CreateOrganization(s, name, now).store;
      CreateOrganization(s', name, later) == Answer(400, s') &&
      OrganizationInfo(s', name) == Some(Org(now, now))
  {
  }

  // ---------------------------------------------------------------- memberships

  /** `invite_org_user`: 400 for an unknown user or an existing membership;
      otherwise the membership row is created (201). */
  function InviteOrgUser(s: Store, org: string, username: string, roles: seq<string>): (a: Answer)
    ensures username !in s.users || (username, org) in s.roles ==> a == Answer(400, s)
    ensures username in s.users && (username, org) !in s.roles ==>
              a == Answer(201, s.(roles := s.roles[(username, org) := roles]))
  {
    if username !in s.users then Answer(400, s)
    else if (username, org) in s.roles then Answer(400, s)
    else Answer(201, s.(roles := s.roles[(username, org) := roles]))
  }

  /** `remove_org_user`: the row is deleted (204), or 404 when there is none. */
  function RemoveOrgUser(s: Store, org: string, username: string): (a: Answer)
    ensures (username, org) !in s.roles ==> a == Answer(404, s)
    ensures (username, org) in s.roles ==>
              a.code == 204 && a.store == s.(roles := a.store.roles) &&
              (forall k :: k in a.store.roles <==> k in s.roles && k != (username, org)) &&
              (forall k :: k in a.store.roles ==> a.store.roles[k] == s.roles[k])
  {
    if (username, org) in s.roles then Answer(204, s.(roles := s.roles - {(username, org)}))
    else Answer(404, s)
  }

  /** `update_org_user`: an existing row gets the new roles (201); a missing
      one is never created (404). */
  function UpdateOrgUser(s: Store, org: string, username: string, roles: seq<string>): (a: Answer)
    ensures (username, org) !in s.roles ==> a == Answer(404, s)
    ensures (username, org) in s.roles ==>
              a.code == 201 && a.store == s.(roles := a.store.roles) &&
              a.store.roles.Keys == s.roles.Keys && a.store.roles[(username, org)] == roles &&
              (forall k :: k in s.roles && k != (username, org) ==> a.store.roles[k] == s.roles[k])
  {
    if (username, org) in s.roles then Answer(201, s.(roles := s.roles[(username, org) := roles]))
    else Answer(404, s)
  }

  /** Inviting a user and then removing the same membership restores the
      store. */
  lemma InviteThenRemove(s: Store, org: string, username: string, roles: seq<string>)
    requires InviteOrgUser(s, org, username, roles).code == 201
    ensures RemoveOrgUser(InviteOrgUser(s, org, username, roles).store, org, username) == Answer(204, s)
  {
    var t := InviteOrgUser(s, org, username, roles).store;
    assert t.roles - {(username, org)} == s.roles;
  }

  /** A membership reads back in the user's response as invited, and
      after an update with the updated roles. */
  lemma MembershipShowsInResponse(s: Store, org: string, username: string, roles: seq<string>, now: int)
    requires username in s.users
    ensures var t := InviteOrgUser(s, org, username, roles).store;
      org in GetUserResponse(t, username, now).0.view.orgs
    ensures (username, org) in s.roles ==>
              var t := UpdateOrgUser(s, org, username, roles).store;
              GetUserResponse(t, username, now).0.view.orgs[org] == roles
  {
  }

  /** Every membership the routes create belongs to a known user: the
      invite and update routes keep that invariant, and so does delete. */
  predicate MembersKnown(s: Store)
  {
    forall k :: k in s.roles ==> k.0 in s.users
  }

  lemma RoutesKeepMembersKnown(s: Store, org: string, username: string, roles: seq<string>, now: int)
    requires MembersKnown(s)
    ensures MembersKnown(InviteOrgUser(s, org, username, roles).store)
    ensures MembersKnown(UpdateOrgUser(s, org, username, roles).store)
    ensures MembersKnown(RemoveOrgUser(s, org, username).store)
    ensures MembersKnown(DeleteUser(s, username, now).store)
    ensures MembersKnown(CreateNewUser(s, username, org, now).store)
  {
  }

  // ---------------------------------------------------------------- routes

  /** `POST /users`: the body guard is outermost, then the root gate. */
  function CreateNewUserRoute(rows: seq<Permission.RoleRow>, body: Option<(string, string)>,
                              valid: ((string, string)) -> bool, s: Store, now: int): (o: Permission.Outcome<Answer>)
    ensures body.None? ==> o == Permission.Denied(Permission.BadRequest(false))
    ensures body.Some? && valid(body.value) ==>
              o == Permission.RootGate(rows, Permission.Handled(CreateNewUser(s, body.value.0, body.value.1, now)))
  {
    Permission.BodyGate(body, valid,
      (b: (string, string)) => Permission.RootGate(rows, Permission.Handled(CreateNewUser(s, b.0, b.1, now))))
  }

  /** `POST /orgs`: the root gate is outermost, then the body guard. */
  function CreateOrganizationRoute(rows: seq<Permission.RoleRow>, body: Option<string>,
                                   valid: string -> bool, s: Store, now: int): (o: Permission.Outcome<Answer>)
    ensures !Permission.HasPermission(rows, Naming.RootOrg, Permission.Admin) ==>
              o == Permission.Denied(Permission.Unauthorized)
    ensures Permission.HasPermission(rows, Naming.RootOrg, Permission.Admin) && body.Some? && valid(body.value) ==>
              o == Permission.Handled(CreateOrganization(s, body.value, now))
  {
    Permission.RootGate(rows,
      Permission.BodyGate(body, valid, (n: string) => Permission.Handled(CreateOrganization(s, n, now))))
  }

  /** The two stacks answer a caller without rights and without a body
      differently: 400 for a new user, 401 for a new organisation. */
  lemma GuardOrderDiffers(rows: seq<Permission.RoleRow>, vu: ((string, string)) -> bool, vo: string -> bool,
                          s: Store, now: int)
    requires !Permission.HasPermission(rows, Naming.RootOrg, Permission.Admin)
    ensures CreateNewUserRoute(rows, None, vu, s, now) == Permission.Denied(Permission.BadRequest(false))
    ensures CreateOrganizationRoute(rows, None, vo, s, now) == Permission.Denied(Permission.Unauthorized)
  {
  }

  /** `POST /orgs/{org}/users`, `DELETE` and `PUT /orgs/{org}/users/{username}`:
      an organisation admin (or a root admin) only. */
  function MembershipRoute(rows: seq<Permission.RoleRow>, org: string, handled: Answer): (o: Permission.Outcome<Answer>)
    ensures o.Handled? <==> Permission.HasPermission(rows, org, Permission.Admin)
    ensures o.Handled? ==> o.answer == handled
  {
    Permission.OrgGate(rows, org, Permission.Admin, Permission.Handled(handled))
  }
}
