/**
 Applying the configs a webhook wants for one device to the table
 (`reconcile_web_source_configs`, iconnect-web/src/client_manager/session.rs).
 */
module WebReconcile {
  import opened Wrappers
  import opened ConfigTable

  datatype ManagedConfig = ManagedConfig(instanceId: string, networkConfig: JsonValue)

  /** The UUID text form, and the test whether a JSON object decodes as a network config. */
  datatype Library = Library(
    parseUuid: string -> Option<Uuid>,
    printUuid: Uuid -> string,
    accepts: NetworkConfig -> bool)

  datatype Result = Done | Rejected | DbFailed

  /** Fill in the instance id, and the instance name unless the config has one. */
  function Normalise(lib: Library, json: JsonValue, id: Uuid): Option<NetworkConfig> {
    if !json.JObject? || "network_name" !in json.fields then None
    else
      var name := json.fields["network_name"];
      if !name.JString? || name.s == "" then None
      else
        var withId := json.fields["instance_id" := JString(lib.printUuid(id))];
        var config := if "instance_name" in withId then withId else withId["instance_name" := name];
        if lib.accepts(config) then Some(config) else None
  }

  /**
   A config is a desired one with its instance filled in: the JSON is an object with a network name, the instance id
   is the given one, the instance name is the network's unless there is one, and every other field is as it was.
   */
  predicate FilledIn(lib: Library, json: JsonValue, id: Uuid, config: NetworkConfig) {
    && json.JObject? && "network_name" in json.fields
    && json.fields["network_name"].JString? && json.fields["network_name"].s != ""
    && config.Keys == json.fields.Keys + {"instance_id", "instance_name"}
    && config["instance_id"] == JString(lib.printUuid(id))
    && config["instance_name"] == (if "instance_name" in json.fields then json.fields["instance_name"] else json.fields["network_name"])
    && (forall f :: f in json.fields && f != "instance_id" && f != "instance_name" ==> config[f] == json.fields[f])
    && lib.accepts(config)
  }

  /** Normalising gives the filled-in config that the decoder accepts, and fails when there is none. */
  lemma NormaliseIff(lib: Library, json: JsonValue, id: Uuid, config: NetworkConfig)
    ensures Normalise(lib, json, id) == Some(config) <==> FilledIn(lib, json, id, config)
  {
    if FilledIn(lib, json, id, config) {
      var withId := json.fields["instance_id" := JString(lib.printUuid(id))];
      var full := if "instance_name" in withId then withId else withId["instance_name" := json.fields["network_name"]];
      assert full == config;
    }
    if Normalise(lib, json, id) == Some(config) {
      assert config.Keys == json.fields.Keys + {"instance_id", "instance_name"};
    }
  }

  /** No config fills in the desired one. */
  ghost predicate Unfillable(lib: Library, json: JsonValue, id: Uuid) {
    forall config :: !FilledIn(lib, json, id, config)
  }

  lemma UnfillableIff(lib: Library, json: JsonValue, id: Uuid)
    ensures Normalise(lib, json, id).None? <==> Unfillable(lib, json, id)
  {
    forall config ensures Normalise(lib, json, id) == Some(config) <==> FilledIn(lib, json, id, config) {
      NormaliseIff(lib, json, id, config);
    }
    if Normalise(lib, json, id).Some? {
      assert FilledIn(lib, json, id, Normalise(lib, json, id).value);
    }
  }

  /** The owner of each listed instance; the last entry of an instance wins. */
  function Sources(entries: seq<Entry>): map<Uuid, ConfigSource> {
    if entries == [] then map[]
    else
      var last := entries[|entries| - 1];
      Sources(entries[..|entries| - 1])[last.key.inst := FromDb(last.row.source)]
  }

  function WebSourced(sources: map<Uuid, ConfigSource>): set<Uuid> {
    set id | id in sources && sources[id] == Web
  }

  predicate OwnedByUser(sources: map<Uuid, ConfigSource>, id: Uuid) {
    id in sources && sources[id] == User
  }

  /** The configs to write, or nothing when some desired config is malformed. */
  function Plan(lib: Library, sources: map<Uuid, ConfigSource>, desired: seq<ManagedConfig>)
    : Option<map<Uuid, NetworkConfig>>
  {
    if desired == [] then Some(map[])
    else
      var last := desired[|desired| - 1];
      match Plan(lib, sources, desired[..|desired| - 1])
      case None => None
      case Some(plan) =>
        match lib.parseUuid(last.instanceId)
        case None => None
        case Some(id) =>
          if OwnedByUser(sources, id) then Some(plan)
          else
            match Normalise(lib, last.networkConfig, id)
            case None => None
            case Some(config) => Some(plan[id := config])
  }

  predicate InScope(k: Key, user: int, machine: Uuid) {
    k.user == user && k.device == machine
  }

  function WebRow(t: Table, k: Key, config: NetworkConfig, now: int): Row {
    Row(Encoded(config), "web", false, if k in t then t[k].createTime else now, now)
  }

  function ScopeKeys(user: int, machine: Uuid, ids: set<Uuid>): set<Key> {
    set id | id in ids :: Key(user, machine, id)
  }

  /** The table after every config of `plan` is written as a web-owned row. */
  function UpsertAll(t: Table, user: int, machine: Uuid, plan: map<Uuid, NetworkConfig>, now: int): Table {
    map k | k in t.Keys + ScopeKeys(user, machine, plan.Keys) ::
      if InScope(k, user, machine) && k.inst in plan then WebRow(t, k, plan[k.inst], now) else t[k]
  }

  /** The table after a reconcile that found `sources` in the database and wrote `plan`. */
  function Applied(t: Table, user: int, machine: Uuid, sources: map<Uuid, ConfigSource>,
                   plan: map<Uuid, NetworkConfig>, now: int): Table
  {
    DeleteMany(UpsertAll(t, user, machine, plan, now), user, machine, WebSourced(sources) - plan.Keys)
  }

  // ---------------------------------------------------------------- what a reconcile must achieve

  /** The owner of each instance of one device of one user. */
  function ScopeSources(t: Table, user: int, machine: Uuid): map<Uuid, ConfigSource> {
    map id | id in (set k | k in t && InScope(k, user, machine) :: k.inst) ::
      FromDb(t[Key(user, machine, id)].source)
  }

  ghost predicate UserOwned(t: Table, user: int, machine: Uuid, id: Uuid) {
    Key(user, machine, id) in t && FromDb(t[Key(user, machine, id)].source) == User
  }

  /** The web-owned instances of one device of one user. */
  function ScopeWebIds(t: Table, user: int, machine: Uuid): set<Uuid> {
    set k | k in t && InScope(k, user, machine) && FromDb(t[k].source) == Web :: k.inst
  }

  function DesiredIds(lib: Library, desired: seq<ManagedConfig>): set<Uuid> {
    set i | 0 <= i < |desired| && lib.parseUuid(desired[i].instanceId).Some? ::
      lib.parseUuid(desired[i].instanceId).value
  }

  /** The i-th desired config is the last one listed for `id`. */
  ghost predicate LastListed(lib: Library, desired: seq<ManagedConfig>, i: nat, id: Uuid) {
    && i < |desired|
    && lib.parseUuid(desired[i].instanceId) == Some(id)
    && forall j :: i < j < |desired| ==> lib.parseUuid(desired[j].instanceId) != Some(id)
  }

  /** Rows of other scopes and rows a user owns are the same in both tables. */
  ghost predicate Protected(t: Table, t': Table, user: int, machine: Uuid) {
    forall k :: k in t.Keys + t'.Keys ==>
      (!InScope(k, user, machine) || UserOwned(t, user, machine, k.inst)) ==>
        k in t && k in t' && t'[k] == t[k]
  }

  /** A config is what the last entry of the list for its id asks for. */
  ghost predicate Explained(lib: Library, desired: seq<ManagedConfig>, id: Uuid, config: NetworkConfig) {
    exists i: nat :: LastListed(lib, desired, i, id) && FilledIn(lib, desired[i].networkConfig, id, config)
  }

  /** The row stored for a desired id is enabled, web-owned, and holds the last config listed for it. */
  ghost predicate HoldsLast(lib: Library, t: Table, t': Table, user: int, machine: Uuid, desired: seq<ManagedConfig>, id: Uuid)
  {
    var k := Key(user, machine, id);
    && k in t'
    && FromDb(t'[k].source) == Web
    && !t'[k].disabled
    && (k in t ==> t'[k].createTime == t[k].createTime)
    && t'[k].config.Encoded?
    && Explained(lib, desired, id, t'[k].config.config)
  }

  /** A reconcile from `t` to `t'` leaves exactly the desired web-owned rows and touches nothing else. */
  ghost predicate Exact(lib: Library, t: Table, t': Table, user: int, machine: Uuid, desired: seq<ManagedConfig>) {
    && ScopeWebIds(t', user, machine) ==
         (set id | id in DesiredIds(lib, desired) && !UserOwned(t, user, machine, id))
    && (forall id :: id in ScopeWebIds(t', user, machine) ==> HoldsLast(lib, t, t', user, machine, desired, id))
    && Protected(t, t', user, machine)
    && NoNewOwners(t, t', user, machine)
  }

  /** No id of the scope has become a user's. */
  ghost predicate NoNewOwners(t: Table, t': Table, user: int, machine: Uuid) {
    forall id :: UserOwned(t', user, machine, id) ==> UserOwned(t, user, machine, id)
  }

  // ---------------------------------------------------------------- the listing

  ghost predicate Mentions(entries: seq<Entry>, id: Uuid) {
    exists i :: 0 <= i < |entries| && entries[i].key.inst == id
  }

  lemma {:induction false} SourcesMention(entries: seq<Entry>, id: Uuid)
    ensures id in Sources(entries) <==> Mentions(entries, id)
  {
    if entries != [] {
      var n := |entries| - 1;
      var init := entries[..n];
      SourcesMention(init, id);
      if Mentions(init, id) {
        var i :| 0 <= i < |init| && init[i].key.inst == id;
        assert entries[i].key.inst == id;
      }
      if Mentions(entries, id) && id != entries[n].key.inst {
        var i :| 0 <= i < |entries| && entries[i].key.inst == id;
        assert init[i].key.inst == id;
      }
    }
  }

  /** An entry whose instance is not listed again later decides the owner. */
  lemma {:induction false} SourcesAt(entries: seq<Entry>, i: nat)
    requires i < |entries|
    requires forall j :: i < j < |entries| ==> entries[j].key.inst != entries[i].key.inst
    ensures entries[i].key.inst in Sources(entries)
    ensures Sources(entries)[entries[i].key.inst] == FromDb(entries[i].row.source)
  {
    var n := |entries| - 1;
    if i < n {
      SourcesAt(entries[..n], i);
    }
  }

  /** For a real device, the listing tells exactly the owners of that device's instances. */
  lemma ListingIsScope(entries: seq<Entry>, t: Table, user: int, machine: Uuid)
    requires machine != NIL_UUID
    requires Enumerates(entries, Listed(t, user, machine, All))
    ensures Sources(entries) == ScopeSources(t, user, machine)
  {
    forall id
      ensures id in Sources(entries) <==> id in ScopeSources(t, user, machine)
      ensures id in Sources(entries) ==> Sources(entries)[id] == ScopeSources(t, user, machine)[id]
    {
      ListingIsScopeAt(entries, t, user, machine, id);
    }
  }

  lemma ListingIsScopeAt(entries: seq<Entry>, t: Table, user: int, machine: Uuid, id: Uuid)
    requires machine != NIL_UUID
    requires Enumerates(entries, Listed(t, user, machine, All))
    ensures id in Sources(entries) <==> id in ScopeSources(t, user, machine)
    ensures id in Sources(entries) ==> Sources(entries)[id] == ScopeSources(t, user, machine)[id]
  {
    var k := Key(user, machine, id);
    SourcesMention(entries, id);
    assert forall j :: 0 <= j < |entries| ==> InScope(entries[j].key, user, machine);
    assert id in ScopeSources(t, user, machine) <==> k in Listed(t, user, machine, All) by {
      assert k.inst == id;
    }
    assert k in Listed(t, user, machine, All) ==> exists i :: 0 <= i < |entries| && entries[i].key == k;
    if Mentions(entries, id) {
      var i :| 0 <= i < |entries| && entries[i].key.inst == id;
      assert entries[i].key == k;
      SourcesAt(entries, i);
    }
  }

  // ---------------------------------------------------------------- the plan

  ghost predicate Malformed(lib: Library, sources: map<Uuid, ConfigSource>, d: ManagedConfig) {
    match lib.parseUuid(d.instanceId)
    case None => true
    case Some(id) => !OwnedByUser(sources, id) && Unfillable(lib, d.networkConfig, id)
  }

  ghost predicate HasMalformed(lib: Library, sources: map<Uuid, ConfigSource>, desired: seq<ManagedConfig>) {
    exists i :: 0 <= i < |desired| && Malformed(lib, sources, desired[i])
  }

  /** A list is rejected exactly when it has a malformed entry that is not a user's. */
  lemma {:induction false} RejectedIff(lib: Library, sources: map<Uuid, ConfigSource>, desired: seq<ManagedConfig>)
    ensures Plan(lib, sources, desired).None? <==> HasMalformed(lib, sources, desired)
  {
    if desired != [] {
      var n := |desired| - 1;
      var init := desired[..n];
      RejectedIff(lib, sources, init);
      if lib.parseUuid(desired[n].instanceId).Some? {
        UnfillableIff(lib, desired[n].networkConfig, lib.parseUuid(desired[n].instanceId).value);
      }
      if Plan(lib, sources, init).None? {
        var i :| 0 <= i < |init| && Malformed(lib, sources, init[i]);
        assert desired[i] == init[i];
      } else {
        assert forall i :: 0 <= i < n ==> init[i] == desired[i] && !Malformed(lib, sources, init[i]);
        if Plan(lib, sources, desired).None? {
          assert Malformed(lib, sources, desired[n]);
        }
      }
    }
  }

  lemma ExplainedExtends(lib: Library, desired: seq<ManagedConfig>, id: Uuid, config: NetworkConfig)
    requires desired != [] && Explained(lib, desired[..|desired| - 1], id, config)
    requires lib.parseUuid(desired[|desired| - 1].instanceId) != Some(id)
    ensures Explained(lib, desired, id, config)
  {
    var init := desired[..|desired| - 1];
    var i: nat :| LastListed(lib, init, i, id) && FilledIn(lib, init[i].networkConfig, id, config);
    assert LastListed(lib, desired, i, id);
  }

  lemma {:induction false} PlanExplains(lib: Library, sources: map<Uuid, ConfigSource>, desired: seq<ManagedConfig>, id: Uuid)
    requires Plan(lib, sources, desired).Some? && id in Plan(lib, sources, desired).value
    ensures Explained(lib, desired, id, Plan(lib, sources, desired).value[id])
  {
    var n := |desired| - 1;
    if lib.parseUuid(desired[n].instanceId) == Some(id) && !OwnedByUser(sources, id) {
      assert LastListed(lib, desired, n, id);
      NormaliseIff(lib, desired[n].networkConfig, id, Plan(lib, sources, desired).value[id]);
    } else {
      PlanExplains(lib, sources, desired[..n], id);
      PlannedIsFree(lib, sources, desired[..n], id);
      ExplainedExtends(lib, desired, id, Plan(lib, sources, desired).value[id]);
    }
  }

  lemma {:induction false} PlannedIsFree(lib: Library, sources: map<Uuid, ConfigSource>, desired: seq<ManagedConfig>, id: Uuid)
    requires Plan(lib, sources, desired).Some?
    ensures id in Plan(lib, sources, desired).value <==> id in DesiredIds(lib, desired) && !OwnedByUser(sources, id)
  {
    if desired != [] {
      var n := |desired| - 1;
      PlannedIsFree(lib, sources, desired[..n], id);
      DesiredSnoc(lib, desired[..n], desired[n]);
      assert desired == desired[..n] + [desired[n]];
    }
  }

  /** An accepted list plans its last config for every id that no user owns, and nothing else. */
  lemma PlanMeaning(lib: Library, sources: map<Uuid, ConfigSource>, desired: seq<ManagedConfig>)
    requires Plan(lib, sources, desired).Some?
    ensures var plan := Plan(lib, sources, desired).value;
            && plan.Keys == (set id | id in DesiredIds(lib, desired) && !OwnedByUser(sources, id))
            && forall id :: id in plan ==> Explained(lib, desired, id, plan[id])
  {
    var plan := Plan(lib, sources, desired).value;
    forall id ensures id in plan <==> id in DesiredIds(lib, desired) && !OwnedByUser(sources, id) {
      PlannedIsFree(lib, sources, desired, id);
    }
    forall id | id in plan ensures Explained(lib, desired, id, plan[id]) {
      PlanExplains(lib, sources, desired, id);
    }
  }

  lemma DesiredSnoc(lib: Library, init: seq<ManagedConfig>, d: ManagedConfig)
    requires lib.parseUuid(d.instanceId).Some?
    ensures DesiredIds(lib, init + [d]) == DesiredIds(lib, init) + {lib.parseUuid(d.instanceId).value}
  {
    var all := init + [d];
    assert all[|init|] == d;
    forall id | id in DesiredIds(lib, init)
      ensures id in DesiredIds(lib, all)
    {
      var i :| 0 <= i < |init| && lib.parseUuid(init[i].instanceId) == Some(id);
      assert all[i] == init[i];
    }
    forall id | id in DesiredIds(lib, all)
      ensures id in DesiredIds(lib, init) + {lib.parseUuid(d.instanceId).value}
    {
      var i :| 0 <= i < |all| && lib.parseUuid(all[i].instanceId) == Some(id);
      if i < |init| { assert all[i] == init[i]; }
    }
  }

  // ---------------------------------------------------------------- exactness

  /** What the code leaves behind when it accepts the list it is given. */
  ghost function Outcome(lib: Library, t: Table, user: int, machine: Uuid, entries: seq<Entry>,
                         desired: seq<ManagedConfig>, now: int): Table
    requires Plan(lib, Sources(entries), desired).Some?
  {
    Applied(t, user, machine, Sources(entries), Plan(lib, Sources(entries), desired).value, now)
  }

  lemma OwnersAgree(t: Table, user: int, machine: Uuid)
    ensures forall id :: OwnedByUser(ScopeSources(t, user, machine), id) <==> UserOwned(t, user, machine, id)
  {
  }

  /** Applying what is planned for a device is exact. */
  lemma PlanExact(lib: Library, t: Table, user: int, machine: Uuid, desired: seq<ManagedConfig>, now: int)
    requires Plan(lib, ScopeSources(t, user, machine), desired).Some?
    ensures var sources := ScopeSources(t, user, machine);
            Exact(lib, t, Applied(t, user, machine, sources, Plan(lib, sources, desired).value, now), user, machine, desired)
  {
    var sources := ScopeSources(t, user, machine);
    var plan := Plan(lib, sources, desired).value;
    var t' := Applied(t, user, machine, sources, plan, now);
    PlanMeaning(lib, sources, desired);
    OwnersAgree(t, user, machine);
    AppliedRows(t, user, machine, plan, now);
    forall id | id in plan ensures HoldsLast(lib, t, t', user, machine, desired, id) {
      assert Explained(lib, desired, id, plan[id]);
    }
    forall id | UserOwned(t', user, machine, id) ensures UserOwned(t, user, machine, id) {
      AppliedAt(t, user, machine, plan, now, Key(user, machine, id));
    }
  }

  /** A successful reconcile of a real device is exact. */
  lemma ReconcileExact(lib: Library, t: Table, user: int, machine: Uuid, entries: seq<Entry>,
                       desired: seq<ManagedConfig>, now: int)
    requires machine != NIL_UUID
    requires Enumerates(entries, Listed(t, user, machine, All))
    requires Plan(lib, Sources(entries), desired).Some?
    ensures Exact(lib, t, Outcome(lib, t, user, machine, entries, desired, now), user, machine, desired)
  {
    ListingIsScope(entries, t, user, machine);
    PlanExact(lib, t, user, machine, desired, now);
  }

  /** One key of the table after a plan is applied. */
  lemma AppliedAt(t: Table, user: int, machine: Uuid, plan: map<Uuid, NetworkConfig>, now: int, k: Key)
    ensures var t' := Applied(t, user, machine, ScopeSources(t, user, machine), plan, now);
            if InScope(k, user, machine) && k.inst in plan then k in t' && t'[k] == WebRow(t, k, plan[k.inst], now)
            else if InScope(k, user, machine) && k in t && FromDb(t[k].source) == Web then k !in t'
            else (k in t' <==> k in t) && (k in t ==> t'[k] == t[k])
  {
    UpsertAllAt(t, user, machine, plan, now, k);
    if InScope(k, user, machine) {
      assert k == Key(user, machine, k.inst);
      assert k.inst in ScopeSources(t, user, machine) <==> k in t;
    }
  }

  /** What applying a plan to a device does to its web-owned ids, and what it leaves alone. */
  lemma AppliedRows(t: Table, user: int, machine: Uuid, plan: map<Uuid, NetworkConfig>, now: int)
    requires forall id :: id in plan ==> !UserOwned(t, user, machine, id)
    ensures var t' := Applied(t, user, machine, ScopeSources(t, user, machine), plan, now);
            && ScopeWebIds(t', user, machine) == plan.Keys
            && Protected(t, t', user, machine)
            && forall id :: id in plan ==>
                 var k := Key(user, machine, id); k in t' && t'[k] == WebRow(t, k, plan[id], now)
  {
    var t' := Applied(t, user, machine, ScopeSources(t, user, machine), plan, now);
    forall k | k in t.Keys + t'.Keys && (!InScope(k, user, machine) || UserOwned(t, user, machine, k.inst))
      ensures k in t && k in t' && t'[k] == t[k]
    {
      AppliedAt(t, user, machine, plan, now, k);
      if InScope(k, user, machine) { assert k == Key(user, machine, k.inst); }
    }
    forall id | id in plan
      ensures var k := Key(user, machine, id); k in t' && t'[k] == WebRow(t, k, plan[id], now)
      ensures id in ScopeWebIds(t', user, machine)
    {
      AppliedAt(t, user, machine, plan, now, Key(user, machine, id));
      assert Key(user, machine, id) in t';
    }
    forall k | k in t' && InScope(k, user, machine) && FromDb(t'[k].source) == Web
      ensures k.inst in plan
    {
      AppliedAt(t, user, machine, plan, now, k);
    }
  }

  /** Every reconcile of this device is exact, whatever the table and the list. */
  ghost predicate AlwaysExact(lib: Library, user: int, machine: Uuid) {
    forall t, entries, desired, now ::
      Enumerates(entries, Listed(t, user, machine, All)) && Plan(lib, Sources(entries), desired).Some? ==>
        Exact(lib, t, Outcome(lib, t, user, machine, entries, desired, now), user, machine, desired)
  }

  /**
   A nil device id makes the listing span all devices while the writes stay in one scope, so the
   promise of an exact reconcile holds for exactly the non-nil device ids.
   */
  lemma ExactIffRealDevice(lib: Library, user: int, machine: Uuid, text: string, id: Uuid)
    requires lib.parseUuid(text) == Some(id)
    ensures AlwaysExact(lib, user, machine) <==> machine != NIL_UUID
  {
    if machine != NIL_UUID {
      forall t, entries, desired, now | Enumerates(entries, Listed(t, user, machine, All)) && Plan(lib, Sources(entries), desired).Some?
        ensures Exact(lib, t, Outcome(lib, t, user, machine, entries, desired, now), user, machine, desired)
      {
        ReconcileExact(lib, t, user, machine, entries, desired, now);
      }
    } else {
      // A user's instance on device 1 hides the same id from the nil device.
      var k := Key(user, 1, id);
      var row := Row(Garbled(""), "user", false, 0, 0);
      var t: Table := map[k := row];
      var entries := [Entry(k, row)];
      var desired := [ManagedConfig(text, JNull)];
      assert Listed(t, user, machine, All) == t;
      assert entries[0].key == k;
      assert Enumerates(entries, Listed(t, user, machine, All));
      assert entries[..0] == [];
      assert Sources(entries) == map[id := User];
      assert desired[..0] == [];
      assert Plan(lib, Sources(entries), desired) == Some(map[]);
      var t' := Outcome(lib, t, user, machine, entries, desired, 0);
      assert desired[0].instanceId == text;
      assert id in DesiredIds(lib, desired);
      assert id !in ScopeWebIds(t', user, machine);
      assert !Exact(lib, t, t', user, machine, desired);
    }
  }

  // ---------------------------------------------------------------- repeating a reconcile

  /** Equal tables apart from update times. */
  ghost predicate SameButUpdateTime(t: Table, t': Table) {
    && t.Keys == t'.Keys
    && forall k :: k in t ==> t'[k].(updateTime := t[k].updateTime) == t[k]
  }

  /** A reconcile does not change which ids a user owns. */
  lemma OwnersKept(t: Table, user: int, machine: Uuid, plan: map<Uuid, NetworkConfig>, now: int, id: Uuid)
    requires forall id :: id in plan ==> !OwnedByUser(ScopeSources(t, user, machine), id)
    ensures var once := Applied(t, user, machine, ScopeSources(t, user, machine), plan, now);
            OwnedByUser(ScopeSources(t, user, machine), id) <==> OwnedByUser(ScopeSources(once, user, machine), id)
  {
    AppliedAt(t, user, machine, plan, now, Key(user, machine, id));
  }

  /** Applying the same list again changes update times only. */
  lemma ReconcileIdempotent(lib: Library, t: Table, user: int, machine: Uuid, desired: seq<ManagedConfig>, now: int, later: int)
    requires Plan(lib, ScopeSources(t, user, machine), desired).Some?
    ensures var sources := ScopeSources(t, user, machine);
            var once := Applied(t, user, machine, sources, Plan(lib, sources, desired).value, now);
            var sources' := ScopeSources(once, user, machine);
            && Plan(lib, sources', desired) == Plan(lib, sources, desired)
            && SameButUpdateTime(once, Applied(once, user, machine, sources', Plan(lib, sources, desired).value, later))
  {
    var sources := ScopeSources(t, user, machine);
    var plan := Plan(lib, sources, desired).value;
    var once := Applied(t, user, machine, sources, plan, now);
    var sources' := ScopeSources(once, user, machine);
    PlanMeaning(lib, sources, desired);
    AppliedRows(t, user, machine, plan, now);
    forall id ensures OwnedByUser(sources, id) <==> OwnedByUser(sources', id) {
      OwnersKept(t, user, machine, plan, now, id);
    }
    PlanDependsOnUsers(lib, sources, sources', desired);
    AppliedRows(once, user, machine, plan, later);
    var twice := Applied(once, user, machine, sources', plan, later);
    forall k | k in once
      ensures k in twice && twice[k].(updateTime := once[k].updateTime) == once[k]
    {
      if InScope(k, user, machine) {
        assert k == Key(user, machine, k.inst);
        if k.inst !in plan {
          assert k.inst !in ScopeWebIds(once, user, machine);
          assert UserOwned(once, user, machine, k.inst);
        }
      }
    }
    forall k | k in twice
      ensures k in once
    {
      if InScope(k, user, machine) {
        assert k == Key(user, machine, k.inst);
        if k.inst in plan { assert Key(user, machine, k.inst) in once; }
      }
    }
  }

  lemma {:induction false} PlanDependsOnUsers(lib: Library, a: map<Uuid, ConfigSource>, b: map<Uuid, ConfigSource>,
                                              desired: seq<ManagedConfig>)
    requires forall id :: OwnedByUser(a, id) <==> OwnedByUser(b, id)
    ensures Plan(lib, a, desired) == Plan(lib, b, desired)
  {
    if desired != [] {
      PlanDependsOnUsers(lib, a, b, desired[..|desired| - 1]);
    }
  }

  // ---------------------------------------------------------------- the method

  /** One more upsert extends the set of configs written. */
  lemma UpsertStep(t: Table, user: int, machine: Uuid, part: map<Uuid, NetworkConfig>, id: Uuid, config: NetworkConfig, now: int)
    requires id !in part
    ensures Upsert(UpsertAll(t, user, machine, part, now), Key(user, machine, id), config, Web, now) ==
            UpsertAll(t, user, machine, part[id := config], now)
  {
    var key := Key(user, machine, id);
    var more := part[id := config];
    var a := Upsert(UpsertAll(t, user, machine, part, now), key, config, Web, now);
    var b := UpsertAll(t, user, machine, more, now);
    forall k: Key
      ensures k in a <==> k in b
      ensures k in a && k in b ==> a[k] == b[k]
    {
      UpsertAllAt(t, user, machine, part, now, k);
      UpsertAllAt(t, user, machine, more, now, k);
    }
  }

  /** One key of the table after a batch of upserts. */
  lemma UpsertAllAt(t: Table, user: int, machine: Uuid, plan: map<Uuid, NetworkConfig>, now: int, k: Key)
    ensures var t' := UpsertAll(t, user, machine, plan, now);
            if InScope(k, user, machine) && k.inst in plan then k in t' && t'[k] == WebRow(t, k, plan[k.inst], now)
            else (k in t' <==> k in t) && (k in t ==> t'[k] == t[k])
  {
    if InScope(k, user, machine) && k.inst in plan {
      assert k == Key(user, machine, k.inst);
      assert k in ScopeKeys(user, machine, plan.Keys);
    }
  }

  ghost predicate PartOf(part: map<Uuid, NetworkConfig>, plan: map<Uuid, NetworkConfig>) {
    forall id :: id in part ==> id in plan && part[id] == plan[id]
  }

  /** A table reached by writing some part of a plan. */
  ghost predicate PartWritten(t: Table, t': Table, user: int, machine: Uuid, plan: map<Uuid, NetworkConfig>, now: int) {
    exists part :: PartOf(part, plan) && t' == UpsertAll(t, user, machine, part, now)
  }

  /** Writing any part of an accepted plan leaves other scopes and users' rows alone. */
  lemma PartialWritesProtect(lib: Library, t: Table, user: int, machine: Uuid, desired: seq<ManagedConfig>,
                             part: map<Uuid, NetworkConfig>, now: int)
    requires var plan := Plan(lib, ScopeSources(t, user, machine), desired);
             plan.Some? && PartOf(part, plan.value)
    ensures Protected(t, UpsertAll(t, user, machine, part, now), user, machine)
  {
    var sources := ScopeSources(t, user, machine);
    PlanMeaning(lib, sources, desired);
    var t' := UpsertAll(t, user, machine, part, now);
    forall k | k in t.Keys + t'.Keys && (!InScope(k, user, machine) || UserOwned(t, user, machine, k.inst))
      ensures k in t && k in t' && t'[k] == t[k]
    {
      if InScope(k, user, machine) {
        assert k == Key(user, machine, k.inst);
        assert k.inst in sources;
      }
    }
  }

  /** Check and normalise the desired configs one by one. */
  method PlanConfigs(lib: Library, sources: map<Uuid, ConfigSource>, desired: seq<ManagedConfig>)
    returns (r: Option<map<Uuid, NetworkConfig>>)
    ensures r == Plan(lib, sources, desired)
    ensures r.None? <==> HasMalformed(lib, sources, desired)
  {
    var plan: map<Uuid, NetworkConfig> := map[];
    var i := 0;
    while i < |desired|
      invariant 0 <= i <= |desired|
      invariant Plan(lib, sources, desired[..i]) == Some(plan)
    {
      assert desired[..i + 1][..i] == desired[..i];
      var parsed := lib.parseUuid(desired[i].instanceId);
      if parsed.None? {
        assert Malformed(lib, sources, desired[i]);
        RejectedIff(lib, sources, desired);
        return None;
      }
      if !OwnedByUser(sources, parsed.value) {
        var config := Normalise(lib, desired[i].networkConfig, parsed.value);
        if config.None? {
          UnfillableIff(lib, desired[i].networkConfig, parsed.value);
          assert Malformed(lib, sources, desired[i]);
          RejectedIff(lib, sources, desired);
          return None;
        }
        plan := plan[parsed.value := config.value];
      }
      i := i + 1;
    }
    assert desired[..i] == desired;
    RejectedIff(lib, sources, desired);
    return Some(plan);
  }

  /** Write the planned configs in some order, stopping at the first failure. */
  method WritePlan(db: Db, user: int, machine: Uuid, plan: map<Uuid, NetworkConfig>, now: int, writeFails: Uuid -> bool)
    returns (ok: bool)
    modifies db
    ensures ok <==> forall id :: id in plan ==> !writeFails(id)
    ensures ok ==> db.rows == UpsertAll(old(db.rows), user, machine, plan, now)
    ensures PartWritten(old(db.rows), db.rows, user, machine, plan, now)
    ensures old(db.history) <= db.history
    ensures forall j :: |old(db.history)| <= j < |db.history| ==>
              PartWritten(old(db.rows), db.history[j], user, machine, plan, now)
  {
    var todo := plan.Keys;
    ghost var done: map<Uuid, NetworkConfig> := map[];
    NothingWritten(db.rows, db.history, user, machine, plan, now);
    while todo != {}
      invariant todo <= plan.Keys && done.Keys == plan.Keys - todo
      invariant forall id :: id in done ==> !writeFails(id)
      invariant Progress(old(db.rows), old(db.history), db.rows, db.history, user, machine, plan, done, now)
      decreases |todo|
    {
      var id :| id in todo;
      WriteExtends(old(db.rows), old(db.history), db.rows, db.history, user, machine, plan, done, id, now);
      ok := db.InsertOrUpdate(Key(user, machine, id), plan[id], Web, now, writeFails(id));
      if !ok {
        return;
      }
      done := done[id := plan[id]];
      todo := todo - {id};
    }
    AllWritten(old(db.rows), old(db.history), db.rows, db.history, user, machine, plan, done, now);
    ok := true;
  }

  /** `done` has been written, and every table written on the way holds some part of the plan. */
  ghost predicate Progress(t: Table, h: seq<Table>, rows: Table, history: seq<Table>, user: int, machine: Uuid,
                           plan: map<Uuid, NetworkConfig>, done: map<Uuid, NetworkConfig>, now: int)
  {
    && PartOf(done, plan)
    && rows == UpsertAll(t, user, machine, done, now)
    && PartWritten(t, rows, user, machine, plan, now)
    && h <= history
    && forall j :: |h| <= j < |history| ==> PartWritten(t, history[j], user, machine, plan, now)
  }

  lemma NothingWritten(t: Table, h: seq<Table>, user: int, machine: Uuid, plan: map<Uuid, NetworkConfig>, now: int)
    ensures Progress(t, h, t, h, user, machine, plan, map[], now)
  {
    assert PartOf(map[], plan);
    assert UpsertAll(t, user, machine, map[], now) == t;
  }

  lemma RowWritten(t: Table, user: int, machine: Uuid, plan: map<Uuid, NetworkConfig>, done: map<Uuid, NetworkConfig>,
                   id: Uuid, now: int)
    requires PartOf(done, plan) && id in plan && id !in done
    ensures var rows := Upsert(UpsertAll(t, user, machine, done, now), Key(user, machine, id), plan[id], Web, now);
            && PartOf(done[id := plan[id]], plan)
            && rows == UpsertAll(t, user, machine, done[id := plan[id]], now)
            && PartWritten(t, rows, user, machine, plan, now)
  {
    UpsertStep(t, user, machine, done, id, plan[id], now);
    assert PartOf(done[id := plan[id]], plan);
  }

  /** Writing one more config of the plan makes progress. */
  lemma WriteExtends(t: Table, h: seq<Table>, rows: Table, history: seq<Table>, user: int, machine: Uuid,
                     plan: map<Uuid, NetworkConfig>, done: map<Uuid, NetworkConfig>, id: Uuid, now: int)
    requires Progress(t, h, rows, history, user, machine, plan, done, now) && id in plan && id !in done
    ensures var rows' := Upsert(rows, Key(user, machine, id), plan[id], Web, now);
            Progress(t, h, rows', history + [rows'], user, machine, plan, done[id := plan[id]], now)
  {
    RowWritten(t, user, machine, plan, done, id, now);
    var rows' := Upsert(rows, Key(user, machine, id), plan[id], Web, now);
    var more := history + [rows'];
    forall j | |h| <= j < |more| ensures PartWritten(t, more[j], user, machine, plan, now) {
      assert j < |history| ==> more[j] == history[j];
    }
  }

  lemma AllWritten(t: Table, h: seq<Table>, rows: Table, history: seq<Table>, user: int, machine: Uuid,
                   plan: map<Uuid, NetworkConfig>, done: map<Uuid, NetworkConfig>, now: int)
    requires Progress(t, h, rows, history, user, machine, plan, done, now) && done.Keys == plan.Keys
    ensures rows == UpsertAll(t, user, machine, plan, now)
  {
    assert done == plan;
  }

  /** A table on the way: part of the plan written, or all of it and the stale rows deleted. */
  ghost predicate OnTheWay(t: Table, t': Table, user: int, machine: Uuid, sources: map<Uuid, ConfigSource>,
                           plan: map<Uuid, NetworkConfig>, now: int)
  {
    PartWritten(t, t', user, machine, plan, now) || t' == Applied(t, user, machine, sources, plan, now)
  }

  /** No write fails, and no delete that has something to do. */
  ghost predicate Faultless(written: set<Uuid>, stale: set<Uuid>, writeFails: Uuid -> bool, deleteFails: bool) {
    (forall id :: id in written ==> !writeFails(id)) && (stale == {} || !deleteFails)
  }

  /** Write the plan, then delete the web-owned rows that are not in it. */
  method ApplyPlan(db: Db, user: int, machine: Uuid, sources: map<Uuid, ConfigSource>, plan: map<Uuid, NetworkConfig>,
                   now: int, writeFails: Uuid -> bool, deleteFails: bool)
    returns (ok: bool)
    modifies db
    ensures ok <==> Faultless(plan.Keys, WebSourced(sources) - plan.Keys, writeFails, deleteFails)
    ensures ok ==> db.rows == Applied(old(db.rows), user, machine, sources, plan, now)
    ensures OnTheWay(old(db.rows), db.rows, user, machine, sources, plan, now)
    ensures old(db.history) <= db.history
    ensures forall j :: |old(db.history)| <= j < |db.history| ==>
              OnTheWay(old(db.rows), db.history[j], user, machine, sources, plan, now)
  {
    ok := WritePlan(db, user, machine, plan, now, writeFails);
    if !ok {
      return;
    }
    var stale := WebSourced(sources) - plan.Keys;
    if stale != {} {
      ok := db.Delete(user, machine, stale, deleteFails);
    } else {
      assert DeleteMany(db.rows, user, machine, stale) == db.rows;
    }
  }

  /** What a reconcile does for the given listing of any device, the nil one included. */
  ghost predicate Handles(lib: Library, t: Table, t': Table, user: int, machine: Uuid, entries: seq<Entry>,
                          desired: seq<ManagedConfig>, now: int, writeFails: Uuid -> bool, deleteFails: bool, r: Result)
  {
    match Plan(lib, Sources(entries), desired)
    case None => r == Rejected && t' == t
    case Some(plan) =>
      if Faultless(plan.Keys, WebSourced(Sources(entries)) - plan.Keys, writeFails, deleteFails)
      then r == Done && t' == Applied(t, user, machine, Sources(entries), plan, now)
      else r == DbFailed && OnTheWay(t, t', user, machine, Sources(entries), plan, now)
  }

  /** What is wanted and what is stale, in terms of the table. */
  lemma PlannedSets(lib: Library, t: Table, user: int, machine: Uuid, desired: seq<ManagedConfig>)
    requires Plan(lib, ScopeSources(t, user, machine), desired).Some?
    ensures var plan := Plan(lib, ScopeSources(t, user, machine), desired).value;
            && plan.Keys == (set id | id in DesiredIds(lib, desired) && !UserOwned(t, user, machine, id))
            && WebSourced(ScopeSources(t, user, machine)) == ScopeWebIds(t, user, machine)
  {
    PlanMeaning(lib, ScopeSources(t, user, machine), desired);
    OwnersAgree(t, user, machine);
    forall id ensures id in WebSourced(ScopeSources(t, user, machine)) <==> id in ScopeWebIds(t, user, machine) {
      if Key(user, machine, id) in t { assert Key(user, machine, id).inst == id; }
    }
  }

  /**
   Reconcile the web-owned rows of one device with a list of desired configs. `writeFails` tells
   which upserts fail, `deleteFails` whether the delete does.
   */
  method ReconcileWebSourceConfigs(lib: Library, db: Db, user: int, machine: Uuid, desired: seq<ManagedConfig>, now: int,
                                   listFails: bool, writeFails: Uuid -> bool, deleteFails: bool)
    returns (r: Result)
    modifies db
    ensures machine != NIL_UUID && !listFails ==>
              (r == Rejected <==> HasMalformed(lib, ScopeSources(old(db.rows), user, machine), desired))
    ensures machine != NIL_UUID ==>
              var wanted := set id | id in DesiredIds(lib, desired) && !UserOwned(old(db.rows), user, machine, id);
              (r == Done <==>
                 && !listFails && !HasMalformed(lib, ScopeSources(old(db.rows), user, machine), desired)
                 && Faultless(wanted, ScopeWebIds(old(db.rows), user, machine) - wanted, writeFails, deleteFails))
    ensures !listFails ==>
              exists entries ::
                && Enumerates(entries, Listed(old(db.rows), user, machine, All))
                && Handles(lib, old(db.rows), db.rows, user, machine, entries, desired, now, writeFails, deleteFails, r)
    ensures listFails ==> r == DbFailed && db.rows == old(db.rows) && db.history == old(db.history)
    ensures r == Rejected ==> db.rows == old(db.rows) && db.history == old(db.history)
    ensures machine != NIL_UUID && r == Done ==> Exact(lib, old(db.rows), db.rows, user, machine, desired)
    ensures machine != NIL_UUID && r == Done ==>
              var sources := ScopeSources(old(db.rows), user, machine);
              Plan(lib, sources, desired).Some? &&
              db.rows == Applied(old(db.rows), user, machine, sources, Plan(lib, sources, desired).value, now)
    ensures old(db.history) <= db.history
    ensures machine != NIL_UUID ==>
              forall i :: |old(db.history)| <= i < |db.history| ==>
                Protected(old(db.rows), db.history[i], user, machine)
    ensures machine != NIL_UUID ==> Protected(old(db.rows), db.rows, user, machine)
  {
    if listFails {
      return DbFailed;
    }
    var entries := db.List(user, machine, All);
    var sources := Sources(entries);
    if machine != NIL_UUID { ListingIsScope(entries, db.rows, user, machine); }

    var planned := PlanConfigs(lib, sources, desired);
    if planned.None? {
      assert Handles(lib, db.rows, db.rows, user, machine, entries, desired, now, writeFails, deleteFails, Rejected);
      return Rejected;
    }
    var plan := planned.value;
    if machine != NIL_UUID {
      ReconcileExact(lib, db.rows, user, machine, entries, desired, now);
      ProtectedThroughout(lib, db.rows, user, machine, desired, now);
      PlannedSets(lib, db.rows, user, machine, desired);
    }
    ghost var t := db.rows;
    var ok := ApplyPlan(db, user, machine, sources, plan, now, writeFails, deleteFails);
    r := if ok then Done else DbFailed;
    assert Handles(lib, t, db.rows, user, machine, entries, desired, now, writeFails, deleteFails, r);
  }

  lemma ProtectedThroughout(lib: Library, t: Table, user: int, machine: Uuid, desired: seq<ManagedConfig>, now: int)
    requires Plan(lib, ScopeSources(t, user, machine), desired).Some?
    ensures forall t' :: PartWritten(t, t', user, machine, Plan(lib, ScopeSources(t, user, machine), desired).value, now) ==>
              Protected(t, t', user, machine)
  {
    var plan := Plan(lib, ScopeSources(t, user, machine), desired).value;
    forall t' | PartWritten(t, t', user, machine, plan, now)
      ensures Protected(t, t', user, machine)
    {
      var part :| PartOf(part, plan) && t' == UpsertAll(t, user, machine, part, now);
      PartialWritesProtect(lib, t, user, machine, desired, part, now);
    }
  }
}
