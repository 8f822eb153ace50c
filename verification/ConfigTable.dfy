/**
 The table of network configs kept by the web console (iconnect-web/src/db/mod.rs).

 A row is keyed by user, device and instance. The text columns `source` and `network_config` keep
 the freedom they have in the database: any text may be stored as a source, and a stored config may
 fail to decode. The clock and the failures of the database are arguments.
 */
module ConfigTable {
  import opened Wrappers

  type Uuid = nat
  const NIL_UUID: Uuid := 0

  datatype ConfigSource = User | Web

  datatype JsonValue =
    | JNull
    | JBool(b: bool)
    | JNumber(n: int)
    | JString(s: string)
    | JArray(items: seq<JsonValue>)
    | JObject(fields: map<string, JsonValue>)

  /** A network config is the JSON object it is stored as. */
  type NetworkConfig = map<string, JsonValue>

  datatype StoredConfig = Encoded(config: NetworkConfig) | Garbled(text: string)

  datatype Key = Key(user: int, device: Uuid, inst: Uuid)

  datatype Row = Row(config: StoredConfig, source: string, disabled: bool, createTime: int, updateTime: int)

  type Table = map<Key, Row>

  datatype ListProps = All | EnabledOnly | DisabledOnly

  datatype Entry = Entry(key: Key, row: Row)

  /** The owner a stored source text stands for: anything but "web" belongs to the user. */
  function FromDb(source: string): ConfigSource {
    if source == "web" then Web else User
  }

  function SourceText(source: ConfigSource): string {
    match source
    case User => "user"
    case Web => "web"
  }

  // ---------------------------------------------------------------- table operations

  /** Insert, or on a key conflict overwrite everything but the creation time. */
  function Upsert(t: Table, key: Key, config: NetworkConfig, source: ConfigSource, now: int): Table {
    t[key := Row(Encoded(config), SourceText(source), false, if key in t then t[key].createTime else now, now)]
  }

  /** Delete the given instances of one user on one device; a nil device is an ordinary device here. */
  function DeleteMany(t: Table, user: int, device: Uuid, ids: set<Uuid>): Table {
    map k | k in t && !(k.user == user && k.device == device && k.inst in ids) :: t[k]
  }

  function RowOf(t: Table, k: Key): Option<Row> {
    if k in t then Some(t[k]) else None
  }

  function SetDisabled(t: Table, key: Key, disabled: bool, now: int): Table {
    if key in t then t[key := t[key].(disabled := disabled, updateTime := now)] else t
  }

  predicate Lists(props: ListProps, row: Row) {
    match props
    case All => true
    case EnabledOnly => !row.disabled
    case DisabledOnly => row.disabled
  }

  /** The rows a listing returns. A nil device lists the rows of all devices of the user. */
  function Listed(t: Table, user: int, device: Uuid, props: ListProps): Table {
    map k | k in t && k.user == user && (device == NIL_UUID || k.device == device) && Lists(props, t[k]) :: t[k]
  }

  // ---------------------------------------------------------------- the database object

  /** The entries of a listing, in some order: each row once. */
  ghost predicate Enumerates(entries: seq<Entry>, t: Table) {
    && (forall i :: 0 <= i < |entries| ==> entries[i].key in t && entries[i].row == t[entries[i].key])
    && (forall i, j :: 0 <= i < j < |entries| ==> entries[i].key != entries[j].key)
    && (forall k :: k in t ==> exists i :: 0 <= i < |entries| && entries[i].key == k)
  }

  /** Put the rows of a table in a sequence. The order is arbitrary, as it is in the database. */
  method Enumerate(t: Table) returns (entries: seq<Entry>)
    ensures Enumerates(entries, t)
  {
    entries := [];
    var todo := t.Keys;
    while todo != {}
      invariant todo <= t.Keys
      invariant forall i :: 0 <= i < |entries| ==>
        entries[i].key in t && entries[i].row == t[entries[i].key] && entries[i].key !in todo
      invariant forall i, j :: 0 <= i < j < |entries| ==> entries[i].key != entries[j].key
      invariant forall k :: k in t && k !in todo ==> exists i :: 0 <= i < |entries| && entries[i].key == k
      decreases |todo|
    {
      var k :| k in todo;
      ghost var before := entries;
      entries := entries + [Entry(k, t[k])];
      todo := todo - {k};
      forall q | q in t && q !in todo
        ensures exists i :: 0 <= i < |entries| && entries[i].key == q
      {
        if q == k {
          assert entries[|before|].key == q;
        } else {
          var i :| 0 <= i < |before| && before[i].key == q;
          assert entries[i].key == q;
        }
      }
    }
  }

  /** The database. `history` records the table after every write. */
  class Db {
    var rows: Table
    ghost var history: seq<Table>

    constructor ()
      ensures rows == map[] && history == []
    {
      rows := map[];
      history := [];
    }

    /** Upsert one row; a failed statement leaves the table as it was. */
    method InsertOrUpdate(key: Key, config: NetworkConfig, source: ConfigSource, now: int, fails: bool)
      returns (ok: bool)
      modifies this
      ensures ok == !fails
      ensures rows == if fails then old(rows) else Upsert(old(rows), key, config, source, now)
      ensures forall k :: k != key ==> (k in rows <==> k in old(rows)) && (k in rows ==> rows[k] == old(rows)[k])
      ensures ok ==> key in rows && !rows[key].disabled && rows[key].config == Encoded(config) && FromDb(rows[key].source) == source
      ensures ok ==> rows[key].source == (if source.Web? then "web" else "user") && rows[key].updateTime == now
      ensures ok ==> rows[key].createTime == if key in old(rows) then old(rows)[key].createTime else now
      ensures history == if fails then old(history) else old(history) + [rows]
    {
      if fails {
        return false;
      }
      rows := Upsert(rows, key, config, source, now);
      history := history + [rows];
      ok := true;
    }

    /** Delete instances of one scope in one statement. */
    method Delete(user: int, device: Uuid, ids: set<Uuid>, fails: bool) returns (ok: bool)
      modifies this
      ensures ok == !fails
      ensures rows == if fails then old(rows) else DeleteMany(old(rows), user, device, ids)
      ensures forall k :: k in rows <==> k in old(rows) && (fails || k.user != user || k.device != device || k.inst !in ids)
      ensures forall k :: k in rows ==> rows[k] == old(rows)[k]
      ensures history == if fails then old(history) else old(history) + [rows]
    {
      if fails {
        return false;
      }
      rows := DeleteMany(rows, user, device, ids);
      history := history + [rows];
      ok := true;
    }

    /** Enable or disable one row; a missing row is not an error. */
    method UpdateState(key: Key, disabled: bool, now: int)
      modifies this
      ensures rows == SetDisabled(old(rows), key, disabled, now)
      ensures rows.Keys == old(rows).Keys
      ensures forall k :: k in rows && k != key ==> rows[k] == old(rows)[k]
      ensures key in rows ==>
                && rows[key].disabled == disabled && rows[key].updateTime == now
                && rows[key].config == old(rows)[key].config && rows[key].source == old(rows)[key].source
                && rows[key].createTime == old(rows)[key].createTime
      ensures history == old(history) + [rows]
    {
      if key in rows {
        rows := rows[key := rows[key].(disabled := disabled, updateTime := now)];
      }
      history := history + [rows];
    }

    method List(user: int, device: Uuid, props: ListProps) returns (entries: seq<Entry>)
      ensures Enumerates(entries, Listed(rows, user, device, props))
      ensures forall e :: e in entries <==>
                && e.key in rows && e.row == rows[e.key]
                && e.key.user == user && (device == 0 || e.key.device == device)
                && (props == EnabledOnly ==> !e.row.disabled) && (props == DisabledOnly ==> e.row.disabled)
    {
      var listed := Listed(rows, user, device, props);
      entries := Enumerate(listed);
      forall e: Entry | e.key in listed && e.row == rows[e.key] ensures e in entries {
        var i :| 0 <= i < |entries| && entries[i].key == e.key;
        assert entries[i] == e;
      }
    }
  }
}
