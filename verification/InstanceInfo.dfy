/**
 The two ways to ask the instance manager about instances: one by one, and all at once
 (`get_network_info` and `collect_network_infos`, iconnectd/src/instance_manager.rs).
 */
module InstanceInfo {
  import opened Wrappers

  /** Running information; an error record carries nothing but its message. */
  datatype Info = Info(errorMsg: Option<string>, details: string)

  function ErrorInfo(msg: string): Info {
    Info(Some(msg), "")
  }

  /** The manager's tables. An instance whose running information cannot be had maps to `None`. */
  class Manager {
    var instances: map<nat, Option<Info>>
    var errors: map<nat, string>

    constructor ()
      ensures instances == map[] && errors == map[]
    {
      instances, errors := map[], map[];
    }

    /** What is known about one instance: a recorded error comes before the running information. */
    function Lookup(id: nat): Option<Info>
      reads this
    {
      if id in errors then Some(ErrorInfo(errors[id]))
      else if id in instances then instances[id]
      else None
    }

    method GetNetworkInfo(id: nat) returns (r: Option<Info>)
      ensures r == Lookup(id)
      ensures id in errors ==> r == Some(Info(Some(errors[id]), ""))
      ensures id !in errors ==> r == if id in instances then instances[id] else None
    {
      if id in errors {
        return Some(ErrorInfo(errors[id]));
      }
      if id !in instances {
        return None;
      }
      return instances[id];
    }

    /** The bulk answer has an entry exactly for the ids whose lookup has one, and the same entry. */
    method CollectNetworkInfos() returns (ret: map<nat, Info>)
      ensures forall id :: id in ret <==> Lookup(id).Some?
      ensures forall id :: id in ret ==> Some(ret[id]) == Lookup(id)
      ensures forall id :: id in ret && id in errors ==> ret[id].errorMsg == Some(errors[id]) && ret[id].details == ""
      ensures forall id :: id in ret && id !in errors ==> id in instances && instances[id] == Some(ret[id])
    {
      ret := map[];
      var todo := instances.Keys;
      while todo != {}
        invariant todo <= instances.Keys
        invariant forall id :: id in ret <==> id in instances && id !in todo && instances[id].Some?
        invariant forall id :: id in ret ==> Some(ret[id]) == instances[id]
        decreases |todo|
      {
        var id :| id in todo;
        if instances[id].Some? {
          ret := ret[id := instances[id].value];
        }
        todo := todo - {id};
      }
      todo := errors.Keys;
      while todo != {}
        invariant todo <= errors.Keys
        invariant forall id :: id in ret <==>
          (id in errors && id !in todo) || (id in instances && instances[id].Some?)
        invariant forall id :: id in ret ==>
          Some(ret[id]) == if id in errors && id !in todo then Some(ErrorInfo(errors[id])) else instances[id]
        decreases |todo|
      {
        var id :| id in todo;
        ret := ret[id := ErrorInfo(errors[id])];
        todo := todo - {id};
      }
    }

    /** Delete instances and their recorded errors. */
    method DeleteNetworkInstance(ids: set<nat>) returns (left: set<nat>)
      modifies this
      ensures left == instances.Keys == old(instances).Keys - ids
      ensures errors.Keys == old(errors).Keys - ids
      ensures forall id :: id !in ids ==> Lookup(id) == old(Lookup(id))
      ensures forall id :: id in ids ==> Lookup(id).None?
    {
      instances := instances - ids;
      errors := errors - ids;
      left := instances.Keys;
    }

    /** Keep the given instances and drop all others. */
    method RetainNetworkInstance(ids: set<nat>) returns (left: set<nat>)
      modifies this
      ensures left == instances.Keys == old(instances).Keys * ids
      ensures errors.Keys == old(errors).Keys * ids
      ensures forall id :: id in ids ==> Lookup(id) == old(Lookup(id))
      ensures forall id :: id !in ids ==> Lookup(id).None?
    {
      instances := instances - (instances.Keys - ids);
      errors := errors - (errors.Keys - ids);
      left := instances.Keys;
    }
  }
}
