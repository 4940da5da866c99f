/** The client API's shared helpers: the caller's roles with their freeze
    marks, the first-match role test every container route starts with,
    and the lookups of an organisation's configuration and of one
    container's stored data. */
module ClientAccess {
  import opened Wrappers
  import opened Naming
  import opened JsonData

  const Write := "write"
  const Read := "read"

  /** A role-table row: an organisation and the roles held in it. */
  datatype RoleItem = RoleItem(organization: string, roles: seq<string>)

  /** Who is calling: an authorised user whose role query gave rows (or no
      `Items` at all), or a request without an authorizer context. */
  datatype Caller = Authorized(items: Option<seq<RoleItem>>) | Local

  /** A role as `get_roles` reports it. */
  datatype Role = Role(org: string, roles: seq<string>, freezed: bool)

  /** The roles of a request without an authorizer context. */
  const LocalItems := [RoleItem(RootOrg, [Write, Read]), RoleItem("sample", [Write, Read])]

  function ItemsOf(c: Caller): seq<RoleItem>
  {
    match c
    case Authorized(items) => if items.Some? then items.value else []
    case Local => LocalItems
  }

  /** Whether an organisation is listed in `freezed.json`; an unreadable
      file (`None`) freezes nobody. */
  predicate Frozen(freezedFile: Option<seq<string>>, org: string)
  {
    freezedFile.Some? && org in freezedFile.value
  }

  /** `get_roles`: one role per row, in row order, marked freezed exactly
      when its organisation is listed. */
  function GetRoles(c: Caller, freezedFile: Option<seq<string>>): (rs: seq<Role>)
    ensures |rs| == |ItemsOf(c)|
    ensures forall i :: 0 <= i < |rs| ==>
              rs[i].org == ItemsOf(c)[i].organization && rs[i].roles == ItemsOf(c)[i].roles &&
              (rs[i].freezed <==> Frozen(freezedFile, rs[i].org))
  {
    if c.Authorized? && c.items.None? then []
    else
      var items := ItemsOf(c);
      seq(|items|, i requires 0 <= i < |items| =>
        Role(items[i].organization, items[i].roles, Frozen(freezedFile, items[i].organization)))
  }

  /** An entry that decides `has_role`: of the organisation or of root, and
      holding the role. */
  predicate Matches(r: Role, org: string, roleName: string)
  {
    (r.org == org || r.org == RootOrg) && roleName in r.roles
  }

  /** What the deciding entry answers: always yes for root, and for `write`
      only when not freezed. */
  predicate Allows(r: Role, org: string, roleName: string)
  {
    org == RootOrg || roleName != Write || !r.freezed
  }

  /** Entry `i` is the first matching entry and it allows the role. */
  predicate DecidesYes(roles: seq<Role>, i: int, org: string, roleName: string)
  {
    0 <= i < |roles| && Matches(roles[i], org, roleName) &&
    (forall j :: 0 <= j < i ==> !Matches(roles[j], org, roleName)) &&
    Allows(roles[i], org, roleName)
  }

  /** `has_role`: the first matching entry decides; no match denies. */
  function HasRole(roles: seq<Role>, org: string, roleName: string): (b: bool)
    ensures b <==> exists i :: DecidesYes(roles, i, org, roleName)
  {
    if roles == [] then false
    else if Matches(roles[0], org, roleName) then
      assert DecidesYes(roles, 0, org, roleName) <==> Allows(roles[0], org, roleName);
      if org == RootOrg then true
      else if roleName == Write then !roles[0].freezed
      else true
    else
      var b := HasRole(roles[1..], org, roleName);
      HasRoleTail(roles, org, roleName);
      b
  }

  /** Past a non-matching head, the decision is the tail's. */
  lemma HasRoleTail(roles: seq<Role>, org: string, roleName: string)
    requires roles != [] && !Matches(roles[0], org, roleName)
    ensures (exists i :: DecidesYes(roles, i, org, roleName)) <==> (exists i :: DecidesYes(roles[1..], i, org, roleName))
  {
    if i :| DecidesYes(roles, i, org, roleName) {
      DecidesShift(roles, i - 1, org, roleName);
    }
    if i :| DecidesYes(roles[1..], i, org, roleName) {
      DecidesShift(roles, i, org, roleName);
    }
  }

  lemma DecidesShift(roles: seq<Role>, i: int, org: string, roleName: string)
    requires roles != [] && !Matches(roles[0], org, roleName)
    ensures DecidesYes(roles, i + 1, org, roleName) <==> DecidesYes(roles[1..], i, org, roleName)
  {
    var t := roles[1..];
    if 0 <= i < |t| {
      assert roles[i + 1] == t[i];
      assert (forall j :: 0 <= j < i + 1 ==> !Matches(roles[j], org, roleName)) <==>
             (forall j :: 0 <= j < i ==> !Matches(t[j], org, roleName)) by {
        assert forall j :: 0 <= j < i ==> t[j] == roles[j + 1];
      }
    }
  }

  /** The first match decides: a freezed entry refuses `write` even when a
      later entry would allow it. */
  lemma FreezedFirstRefusesWrite(roles: seq<Role>, org: string)
    requires org != RootOrg && roles != []
    requires Matches(roles[0], org, Write) && roles[0].freezed
    ensures !HasRole(roles, org, Write)
  {
  }

  /** Without an authorizer context anyone may read anything, and may
      write unless root is listed as freezed (or the organisation is root). */
  lemma LocalAccess(org: string, freezedFile: Option<seq<string>>)
    ensures HasRole(GetRoles(Local, freezedFile), org, Read)
    ensures HasRole(GetRoles(Local, freezedFile), org, Write) <==> org == RootOrg || !Frozen(freezedFile, RootOrg)
  {
    var rs := GetRoles(Local, freezedFile);
    assert Matches(rs[0], org, Read) && Allows(rs[0], org, Read);
    assert Matches(rs[0], org, Write);
    if HasRole(rs, org, Write) {
      var i :| 0 <= i < |rs| && Matches(rs[i], org, Write) &&
               (forall j :: 0 <= j < i ==> !Matches(rs[j], org, Write)) && Allows(rs[i], org, Write);
      assert i == 0;
    } else {
      assert !Allows(rs[0], org, Write);
    }
  }

  // ---------------------------------------------------------------- stored documents

  /** An organisation's `config.json`; `containers` is `None` when the key
      is absent (as in the empty document read for a missing file). Other
      keys of the document are not touched by the container routes. */
  datatype Config = Config(containers: Option<seq<Object>>)

  /** `prefix + 'config.json'`. */
  function ConfigKey(org: string): (k: string)
    ensures OrgPrefix(org) <= k
  {
    OrgPrefix(org) + "config.json"
  }

  /** `get_config_data`: the stored document, or `{}` when there is none. */
  function GetConfigData(configs: map<string, Config>, org: string): (c: Config)
    ensures ConfigKey(org) in configs ==> c == configs[ConfigKey(org)]
    ensures ConfigKey(org) !in configs ==> c.containers.None?
  {
    if ConfigKey(org) in configs then configs[ConfigKey(org)] else Config(None)
  }

  /** Distinct organisations read distinct configuration documents. */
  lemma ConfigKeyInjective(a: string, b: string)
    requires ConfigKey(a) == ConfigKey(b)
    ensures a == b
  {
    var s := "config.json";
    assert OrgPrefix(a) == ConfigKey(a)[..|ConfigKey(a)| - |s|];
    assert OrgPrefix(b) == ConfigKey(b)[..|ConfigKey(b)| - |s|];
    OrgPrefixInjective(a, b);
  }

  /** `'containers/' + prefix + name + '.json'`. */
  function ContainerKey(org: string, name: string): string
  {
    "containers/" + OrgPrefix(org) + name + ".json"
  }

  /** Within one organisation, distinct containers have distinct data objects. */
  lemma ContainerKeyInjective(org: string, a: string, b: string)
    requires ContainerKey(org, a) == ContainerKey(org, b)
    ensures a == b
  {
    var head := "containers/" + OrgPrefix(org);
    assert ContainerKey(org, a) == head + a + ".json";
    assert ContainerKey(org, b) == head + b + ".json";
    assert |a| == |b|;
    assert a == ContainerKey(org, a)[|head|..|head| + |a|];
    assert b == ContainerKey(org, b)[|head|..|head| + |b|];
  }

  /** What `get_container_data` gives: `KeyError` for a document without
      `containers`, `(None, None)` for an unknown name, or the data and the
      configuration entry (`index` is the entry's position). */
  datatype Lookup = NoContainers | Absent | Found(data: Object, entry: Object, index: nat)

  /** `get_container_data`: the first entry with the name; its stored data
      object, or a copy of the entry itself when there is none. */
  function GetContainerData(files: map<string, Object>, org: string, name: string, config: Config): (l: Lookup)
    ensures l.NoContainers? <==> config.containers.None?
    ensures l.Absent? <==> config.containers.Some? && forall e :: e in config.containers.value ==> !NameIs(e, name)
    ensures l.Found? ==>
              var es := config.containers.value;
              l.index < |es| && l.entry == es[l.index] && NameIs(l.entry, name) &&
              (forall j :: 0 <= j < l.index ==> !NameIs(es[j], name)) &&
              l.data == (if ContainerKey(org, name) in files then files[ContainerKey(org, name)] else l.entry)
  {
    match config.containers
    case None => NoContainers
    case Some(es) =>
      var i := FirstNamed(es, name);
      if i == |es| then Absent
      else
        var key := ContainerKey(org, name);
        Found(if key in files then files[key] else es[i], es[i], i)
  }
}
