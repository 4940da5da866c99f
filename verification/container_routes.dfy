/** The client API's container routes: list, create, read, update and
    delete a container of an organisation. A container is an entry of the
    organisation's `config.json`, plus a data object of its own and a
    published script. The stores, the clock and the random draws are
    inputs; every write is part of the returned store. */
module ContainerRoutes {
  import opened Wrappers
  import opened Strings
  import opened Naming
  import opened JsonData
  import opened ClientAccess

  /** The objects the routes read and write: configuration documents and
      container data objects by key, and the keys of published scripts. */
  datatype Store = Store(configs: map<string, Config>, files: map<string, Object>, scripts: set<string>)

  /** Why a request was refused with 400. */
  datatype Reason = NameRequired | Duplicated | NotAList(field: string)

  /** A route's answer. `Raised`: a configuration without `containers`
      made the lookup fail; `Exhausted`: the random draws ran out before a
      fresh name came up. */
  datatype Reply<T> =
    | Unauthorized
    | NotFound
    | BadRequest(reason: Reason)
    | Raised
    | Exhausted
    | Ok(value: T, store: Store)

  /** `prefix + name + '.js'`, the published script. */
  function ScriptKey(org: string, name: string): string
  {
    OrgPrefix(org) + name + ".js"
  }

  /** The containers of a configuration, `[]` when it has none. */
  function ContainersOf(c: Config): seq<Object>
  {
    if c.containers.Some? then c.containers.value else []
  }

  // ---------------------------------------------------------------- random names

  const NamePrefix := "OTM-"

  function UpperChar(c: char): (u: char)
    ensures IsAlnum(c) ==> 'A' <= u <= 'Z' || IsDigit(u)
    ensures !('a' <= c <= 'z') ==> u == c
  {
    if 'a' <= c <= 'z' then (c as int - 32) as char else c
  }

  /** `str.upper()` on ASCII text. */
  function Upper(s: string): (u: string)
    ensures |u| == |s|
    ensures forall i :: 0 <= i < |s| ==> u[i] == UpperChar(s[i])
  {
    seq(|s|, i requires 0 <= i < |s| => UpperChar(s[i]))
  }

  /** Some container already carries this generated name. */
  predicate Taken(es: seq<Object>, name: string)
  {
    exists e :: e in es && NameIs(e, name)
  }

  /** The name a draw of `randomname(8)` gives. */
  function Candidate(draw: string): string
  {
    NamePrefix + Upper(draw)
  }

  /** `make_random_name`: the first draw whose name is not taken; the source
      draws again until one is fresh, here the draws are a finite input. */
  function MakeRandomName(es: seq<Object>, draws: seq<string>): (r: Option<string>)
    ensures r.Some? ==> NamePrefix <= r.value && !Taken(es, r.value)
    ensures r.Some? ==> exists i :: 0 <= i < |draws| && r.value == Candidate(draws[i]) &&
                          forall j :: 0 <= j < i ==> Taken(es, Candidate(draws[j]))
    ensures r.None? <==> forall i :: 0 <= i < |draws| ==> Taken(es, Candidate(draws[i]))
  {
    if draws == [] then None
    else if !Taken(es, Candidate(draws[0])) then Some(Candidate(draws[0]))
    else
      var r := MakeRandomName(es, draws[1..]);
      assert forall i :: 1 <= i < |draws| ==> draws[i] == draws[1..][i - 1];
      r
  }

  /** A draw of eight letters and digits names `OTM-` and eight upper-case
      letters and digits. */
  lemma CandidateShape(draw: string)
    requires |draw| == 8 && forall i :: 0 <= i < 8 ==> IsAlnum(draw[i])
    ensures var n := Candidate(draw);
      |n| == 12 && n[..4] == NamePrefix && forall i :: 4 <= i < 12 ==> 'A' <= n[i] <= 'Z' || IsDigit(n[i])
  {
    var n := Candidate(draw);
    forall i | 4 <= i < 12 ensures 'A' <= n[i] <= 'Z' || IsDigit(n[i])
    {
      assert n[i] == UpperChar(draw[i - 4]);
    }
  }

  // ---------------------------------------------------------------- list and read

  /** `GET /`: the organisation's containers, `[]` when there are none. */
  function ListContainers(roles: seq<Role>, store: Store, org: string): (r: Reply<seq<Object>>)
    ensures r.Unauthorized? <==> !HasRole(roles, org, Read)
    ensures r.Ok? ==> r.store == store && r.value == ContainersOf(GetConfigData(store.configs, org))
    ensures r.Unauthorized? || r.Ok?
  {
    if !HasRole(roles, org, Read) then Unauthorized
    else Ok(ContainersOf(GetConfigData(store.configs, org)), store)
  }

  /** `GET /{name}`: the container's data object. */
  function GetContainer(roles: seq<Role>, store: Store, org: string, name: string): (r: Reply<Object>)
    ensures r.Unauthorized? <==> !HasRole(roles, org, Read)
    ensures r.Ok? ==> r.store == store
    ensures HasRole(roles, org, Read) ==>
              var c := GetConfigData(store.configs, org);
              && (r.Raised? <==> c.containers.None?)
              && (r.NotFound? <==> c.containers.Some? && forall e :: e in c.containers.value ==> !NameIs(e, name))
              && (r.Ok? ==> var es := c.containers.value;
                    FirstNamed(es, name) < |es| &&
                    r.value == if ContainerKey(org, name) in store.files then store.files[ContainerKey(org, name)]
                               else es[FirstNamed(es, name)])
  {
    if !HasRole(roles, org, Read) then Unauthorized
    else match GetContainerData(store.files, org, name, GetConfigData(store.configs, org))
      case NoContainers => Raised
      case Absent => NotFound
      case Found(data, _, _) => Ok(data, store)
  }

  // ---------------------------------------------------------------- create

  /** The new configuration entry: a generated name, the request's name as
      label, both timestamps the same, no domains. */
  function NewEntry(name: string, org: string, caption: Json, ts: int): Object
  {
    map["name" := JStr(name), "org" := JStr(org), "label" := caption,
        "created_at" := JNum(ts), "updated_at" := JNum(ts), "domains" := JList([])]
  }

  /** `POST /`: refuses a body without `name`, and one whose `name` equals
      an existing container's generated name; otherwise appends one entry. */
  function CreateContainer(roles: seq<Role>, store: Store, org: string, body: Object, ts: int,
                           draws: seq<string>): (r: Reply<Object>)
    ensures r.Unauthorized? <==> !HasRole(roles, org, Write)
    ensures r.BadRequest? ==> r.reason.NameRequired? || r.reason.Duplicated?
    ensures r.Raised? == false && r.NotFound? == false
  {
    if !HasRole(roles, org, Write) then Unauthorized
    else if "name" !in body then BadRequest(NameRequired)
    else
      var es := ContainersOf(GetConfigData(store.configs, org));
      if exists e :: e in es && "name" in e && e["name"] == body["name"] then BadRequest(Duplicated)
      else match MakeRandomName(es, draws)
        case None => Exhausted
        case Some(n) =>
          var entry := NewEntry(n, org, body["name"], ts);
          Ok(entry, store.(configs := store.configs[ConfigKey(org) := Config(Some(es + [entry]))]))
  }

  /** Create refuses exactly a body without `name`, and a body whose
      `name` equals the name of an existing container. */
  lemma CreateRefusals(roles: seq<Role>, store: Store, org: string, body: Object, ts: int, draws: seq<string>)
    requires HasRole(roles, org, Write)
    ensures var r := CreateContainer(roles, store, org, body, ts, draws);
            var es := ContainersOf(GetConfigData(store.configs, org));
      && (r.BadRequest? && r.reason == NameRequired <==> "name" !in body)
      && ("name" in body ==>
            (r.BadRequest? <==> exists e :: e in es && "name" in e && e["name"] == body["name"]))
  {
  }

  /** Create appends exactly one entry, with a fresh generated name, to the
      organisation's containers (creating the list if needed), and changes
      nothing else. */
  lemma CreateAppends(roles: seq<Role>, store: Store, org: string, body: Object, ts: int, draws: seq<string>)
    requires HasRole(roles, org, Write)
    ensures var r := CreateContainer(roles, store, org, body, ts, draws);
            var es := ContainersOf(GetConfigData(store.configs, org));
      r.Ok? ==>
        && ContainersOf(GetConfigData(r.store.configs, org)) == es + [r.value]
        && r.value["label"] == body["name"]
        && r.value["created_at"] == r.value["updated_at"] == JNum(ts)
        && r.value["domains"] == JList([])
        && r.value["org"] == JStr(org)
        && (exists n :: r.value["name"] == JStr(n) && NamePrefix <= n && !Taken(es, n))
        && r.store.files == store.files && r.store.scripts == store.scripts
        && (forall o :: o != org ==> GetConfigData(r.store.configs, o) == GetConfigData(store.configs, o))
  {
    var r := CreateContainer(roles, store, org, body, ts, draws);
    var es := ContainersOf(GetConfigData(store.configs, org));
    if r.Ok? {
      var n := MakeRandomName(es, draws).value;
      assert r.value == NewEntry(n, org, body["name"], ts);
      assert r.value["name"] == JStr(n);
      forall o | o != org
        ensures GetConfigData(r.store.configs, o) == GetConfigData(store.configs, o)
      {
        if ConfigKey(o) == ConfigKey(org) { ConfigKeyInjective(o, org); }
      }
    }
  }

  // ---------------------------------------------------------------- update

  /** The fields of a `PUT` body that must be lists when present, in the
      order they are checked. */
  const ListFields := ["observers", "triggers", "domains"]

  predicate BadField(body: Object, f: string)
  {
    f in body && !body[f].JList?
  }

  /** The first list field the body sets to something else. */
  function FirstBadField(body: Object): (f: Option<string>)
    ensures f.None? <==> forall g :: g in ListFields ==> !BadField(body, g)
    ensures f.Some? ==> f.value in ListFields && BadField(body, f.value)
  {
    if BadField(body, "observers") then Some("observers")
    else if BadField(body, "triggers") then Some("triggers")
    else if BadField(body, "domains") then Some("domains")
    else None
  }

  /** `if 'label' in body and body['label']`. */
  predicate NewLabel(body: Object)
  {
    "label" in body && Truthy(body["label"])
  }

  /** Copies `key` from the body when it is there. */
  function Take(o: Object, body: Object, key: string): (r: Object)
    ensures key in body ==> r == o[key := body[key]]
    ensures key !in body ==> r == o
  {
    if key in body then o[key := body[key]] else o
  }

  /** The configuration entry after a `PUT`: label (when truthy), domains
      and `updated_at`. */
  function UpdatedEntry(entry: Object, body: Object, ts: int): Object
  {
    var e1 := if NewLabel(body) then entry["label" := body["label"]] else entry;
    Take(e1, body, "domains")["updated_at" := JNum(ts)]
  }

  /** The data object after a `PUT`: `org`, observers, triggers, label,
      domains, `updated_at` and the script URL. */
  function UpdatedData(data: Object, org: string, body: Object, ts: int, script: string): Object
  {
    var d1 := Take(Take(data["org" := JStr(org)], body, "observers"), body, "triggers");
    var d2 := if NewLabel(body) then d1["label" := body["label"]] else d1;
    Take(d2, body, "domains")["updated_at" := JNum(ts)]["script" := JStr(script)]
  }

  /** `PUT /{name}`. A body with a non-list `observers`, `triggers` or
      `domains` is refused before anything is written. Otherwise the entry
      and the data object are updated, the script is published, and both
      documents are stored. `script` is the published script's URL. */
  function PutContainer(roles: seq<Role>, store: Store, org: string, name: string, body: Object,
                        ts: int, script: string): (r: Reply<Object>)
    ensures r.Unauthorized? <==> !HasRole(roles, org, Write)
    ensures r.BadRequest? ==> r.reason.NotAList? && r.reason.field in ListFields && BadField(body, r.reason.field)
    ensures r.Exhausted? == false
  {
    if !HasRole(roles, org, Write) then Unauthorized
    else
      var config := GetConfigData(store.configs, org);
      match GetContainerData(store.files, org, name, config)
      case NoContainers => Raised
      case Absent => NotFound
      case Found(data, entry, i) =>
        match FirstBadField(body)
        case Some(f) => BadRequest(NotAList(f))
        case None =>
          var es := config.containers.value;
          var data' := UpdatedData(data, org, body, ts, script);
          var es' := es[i := UpdatedEntry(entry, body, ts)];
          Ok(data', Store(store.configs[ConfigKey(org) := Config(Some(es'))],
                          store.files[ContainerKey(org, name) := data'],
                          store.scripts + {ScriptKey(org, name)}))
  }

  /** The fields of an entry a `PUT` may change. */
  const PutEntryKeys := {"label", "domains", "updated_at"}

  /** A `PUT` of a known container is refused exactly when a list field is
      not a list. */
  lemma PutRefusals(roles: seq<Role>, store: Store, org: string, name: string, body: Object, ts: int, script: string)
    requires HasRole(roles, org, Write)
    requires GetContainerData(store.files, org, name, GetConfigData(store.configs, org)).Found?
    ensures var r := PutContainer(roles, store, org, name, body, ts, script);
      (r.BadRequest? <==> exists f :: f in ListFields && BadField(body, f)) && (r.Ok? || r.BadRequest?)
  {
  }

  /** The updated entry: label (when truthy) and domains (when given) from
      the body, `updated_at` from the clock, every other field as it was. */
  lemma UpdatedEntryFields(entry: Object, body: Object, ts: int)
    ensures var e' := UpdatedEntry(entry, body, ts);
      && e'["updated_at"] == JNum(ts)
      && (NewLabel(body) ==> e'["label"] == body["label"])
      && ("domains" in body ==> e'["domains"] == body["domains"])
      && (forall k :: k !in PutEntryKeys ==> (k in e' <==> k in entry) && (k in e' ==> e'[k] == entry[k]))
      && (!NewLabel(body) ==> ("label" in e' <==> "label" in entry) && ("label" in e' ==> e'["label"] == entry["label"]))
  {
  }

  /** The updated data object carries the same label, domains and time as
      the entry, the organisation and the script URL. */
  lemma UpdatedDataFields(data: Object, org: string, body: Object, ts: int, script: string)
    ensures var d' := UpdatedData(data, org, body, ts, script);
      && d'["updated_at"] == JNum(ts) && d'["org"] == JStr(org) && d'["script"] == JStr(script)
      && (NewLabel(body) ==> d'["label"] == body["label"])
      && ("domains" in body ==> d'["domains"] == body["domains"])
      && ("observers" in body ==> d'["observers"] == body["observers"])
      && ("triggers" in body ==> d'["triggers"] == body["triggers"])
  {
  }

  /** An accepted `PUT` rewrites only the container's own entry, stores the
      data object and publishes the script. */
  lemma PutUpdates(roles: seq<Role>, store: Store, org: string, name: string, body: Object, ts: int, script: string)
    requires HasRole(roles, org, Write)
    requires GetContainerData(store.files, org, name, GetConfigData(store.configs, org)).Found?
    ensures var r := PutContainer(roles, store, org, name, body, ts, script);
            var l := GetContainerData(store.files, org, name, GetConfigData(store.configs, org));
            var es := GetConfigData(store.configs, org).containers.value;
      r.Ok? ==>
        && GetConfigData(r.store.configs, org).containers == Some(es[l.index := UpdatedEntry(l.entry, body, ts)])
        && r.value == UpdatedData(l.data, org, body, ts, script)
        && r.store.files == store.files[ContainerKey(org, name) := r.value]
        && r.store.scripts == store.scripts + {ScriptKey(org, name)}
  {
  }

  // ---------------------------------------------------------------- delete

  /** `DELETE /{name}`: unpublishes the script (a missing one is no error)
      and removes the container's entry from the configuration. */
  function DeleteContainer(roles: seq<Role>, store: Store, org: string, name: string): (r: Reply<()>)
    ensures r.Unauthorized? <==> !HasRole(roles, org, Write)
    ensures r.Ok? ==> ScriptKey(org, name) !in r.store.scripts && r.store.files == store.files
    ensures r.Ok? || r.Unauthorized? || r.NotFound? || r.Raised?
  {
    if !HasRole(roles, org, Write) then Unauthorized
    else
      var config := GetConfigData(store.configs, org);
      match GetContainerData(store.files, org, name, config)
      case NoContainers => Raised
      case Absent => NotFound
      case Found(_, entry, _) =>
        var es' := RemoveValue(config.containers.value, entry);
        Ok((), store.(configs := store.configs[ConfigKey(org) := Config(Some(es'))],
                      scripts := store.scripts - {ScriptKey(org, name)}))
  }

  /** Delete removes the first entry with the name and keeps the others in
      order; an unknown name is 404. */
  lemma DeleteSpec(roles: seq<Role>, store: Store, org: string, name: string)
    requires HasRole(roles, org, Write)
    ensures var r := DeleteContainer(roles, store, org, name);
            var c := GetConfigData(store.configs, org);
      && (c.containers.Some? ==>
            (r.NotFound? <==> forall e :: e in c.containers.value ==> !NameIs(e, name)))
      && (r.Ok? ==>
            var es := c.containers.value;
            var i := FirstNamed(es, name);
            i < |es| && GetConfigData(r.store.configs, org).containers == Some(RemoveAt(es, i)))
  {
    var r := DeleteContainer(roles, store, org, name);
    var c := GetConfigData(store.configs, org);
    if r.Ok? {
      var es := c.containers.value;
      var i := FirstNamed(es, name);
      forall j | 0 <= j < i ensures es[j] != es[i] { assert !NameIs(es[j], name); }
      RemoveValueAt(es, i);
    }
  }
}
