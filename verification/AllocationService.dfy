/** The allocation service over the repository and the runtime, with any call failing at any time. */
module AllocationService {
  import opened Model
  import opened Storage
  import opened Repositories
  import opened Runtimes
  import opened ServiceFacts
  import PortSearch

  datatype ServiceError =
    | RepositoryFailed(repository: RepositoryError)
    | RuntimeFailed(runtime: RuntimeError)
    | NotFound
    | NoAvailablePort
    | InvalidHost
    | Timeout
    | DeletePersistenceFailed

  datatype Failpoints = Failpoints(createTimeout: bool, updateTimeout: bool, deleteTimeout: bool, deleteDbFailure: bool)

  /** How the calls of one operation fail. */
  datatype Faults = Faults(readFails: bool, writeFails: bool, runtime: Option<RuntimeError>,
                           rollback: Option<RuntimeError>)

  /** The error of a write that is followed by a call of the runtime: the first thing to go wrong. */
  function WriteError(timeout: bool, faults: Faults): Option<ServiceError> {
    if faults.writeFails then Some(RepositoryFailed(Database))
    else if timeout then Some(Timeout)
    else if faults.runtime.Some? then Some(RuntimeFailed(faults.runtime.value))
    else None
  }

  class Service {
    const repo: Repository
    const runtime: Runtime
    const start: Port
    const end: Port
    const validHost: string -> bool
    var failpoints: Failpoints
    ghost const kindred: bool       // whether the runtime started with the protocols the rows name
    ghost var suspect: set<string>  // ids whose last mutation failed after it had changed something

    ghost predicate Valid()
      reads this, repo, runtime
    {
      && runtime.Valid()
      && (forall id :: id !in suspect ==> Synced(repo.tables, runtime.allocations, id))
      && (kindred ==> runtime.Orderly() && Kin(repo.tables, runtime.allocations))
    }

    /** A service over any store and any runtime; what is out of step at the start is suspect. */
    constructor (repo: Repository, runtime: Runtime, start: Port, end: Port, validHost: string -> bool)
      requires runtime.Valid()
      ensures Valid() && this.repo == repo && this.runtime == runtime && this.start == start && this.end == end
      ensures suspect == set id | id in repo.tables.allocations.Keys + runtime.allocations.Keys
                                  && !Synced(repo.tables, runtime.allocations, id)
      ensures failpoints == Failpoints(false, false, false, false)
      ensures kindred == (runtime.Orderly() && Kin(repo.tables, runtime.allocations))
      ensures runtime.calls == [] ==> kindred
    {
      kindred := runtime.Orderly() && Kin(repo.tables, runtime.allocations);
      this.repo, this.runtime, this.start, this.end, this.validHost := repo, runtime, start, end, validHost;
      failpoints := Failpoints(false, false, false, false);
      suspect := set id | id in repo.tables.allocations.Keys + runtime.allocations.Keys
                          && !Synced(repo.tables, runtime.allocations, id);
    }

    /** The shared tail of put_binding and update_allocation: write the binding, then tell the runtime. */
    method StoreAndApply(a: Allocation, existing: Option<Binding>, b: Binding, faults: Faults)
      returns (error: Option<ServiceError>)
      requires Valid() && b.allocationId == a.id && a.id in repo.tables.allocations
      requires GetWithBinding(repo.tables, a.id) == Ok(Some((a, existing)))
      requires existing.Some? ==> b.createdAtMs == existing.value.createdAtMs
      modifies repo, runtime, this`suspect
      ensures Valid() && PortsKept(old(repo.tables), repo.tables) && CreationKept(old(repo.tables), repo.tables, {})
      ensures TidyKept(old(repo.tables), repo.tables)
      ensures OthersUntouched(old(repo.tables), repo.tables, old(runtime.allocations), runtime.allocations, a.id)
      ensures error == WriteError(failpoints.updateTimeout, faults)
      ensures error.None? ==> suspect == old(suspect) - {a.id}
                              && Hydrated(repo.tables, a.id) == Some(WithBinding(a, b))
                              && a.id in runtime.allocations && runtime.allocations[a.id] == WithBinding(a, b)
                              && GetBinding(repo.tables, a.id) == Ok(Some(b))
                              && runtime.calls == old(runtime.calls) + [(Call.Update(WithBinding(a, b)), true)]
      ensures faults.writeFails ==> suspect == old(suspect) && repo.tables == old(repo.tables)
                                    && runtime.allocations == old(runtime.allocations)
      ensures suspect <= old(suspect) + {a.id}
    {
      ghost var t, before := repo.tables, runtime.allocations;
      error := StoreBinding(a, existing, b, faults.writeFails);
      if error.Some? {
        return;
      }
      if failpoints.updateTimeout {
        return Some(Timeout);
      }
      error := Apply(WithBinding(a, b), faults.runtime);
      AlsoApplied(t, repo.tables, before, runtime.allocations, a.id);
    }

    /** Write the binding; until the runtime is told, the id is out of step. */
    method StoreBinding(a: Allocation, existing: Option<Binding>, b: Binding, fails: bool)
      returns (error: Option<ServiceError>)
      requires Valid() && b.allocationId == a.id && a.id in repo.tables.allocations
      requires GetWithBinding(repo.tables, a.id) == Ok(Some((a, existing)))
      requires existing.Some? ==> b.createdAtMs == existing.value.createdAtMs
      modifies repo, this`suspect
      ensures Valid() && PortsKept(old(repo.tables), repo.tables) && CreationKept(old(repo.tables), repo.tables, {})
      ensures TidyKept(old(repo.tables), repo.tables)
      ensures OthersUntouched(old(repo.tables), repo.tables, runtime.allocations, runtime.allocations, a.id)
      ensures error == if fails then Some(RepositoryFailed(Database)) else None
      ensures error.Some? ==> suspect == old(suspect) && repo.tables == old(repo.tables)
      ensures error.None? ==> && suspect == old(suspect) + {a.id} && a.id in repo.tables.allocations
                              && Hydrated(repo.tables, a.id) == Some(WithBinding(a, b))
                              && GetBinding(repo.tables, a.id) == Ok(Some(b))
    {
      ghost var t := repo.tables;
      ReadingsAgree(t, a.id);
      var put := repo.PutBinding(b, fails);
      if put.Err? {
        return Some(RepositoryFailed(put.error));
      }
      PutHydrates(t, repo.tables, a, b);
      if kindred { RewriteKeepsKin(t, repo.tables, runtime.allocations); }
      OneTidied(t, repo.tables, runtime.allocations, runtime.allocations, a.id);
      suspect := suspect + {a.id};
      KeepOthers(t, repo.tables, runtime.allocations, runtime.allocations, suspect, a.id);
      error := None;
    }

    /** Tell the runtime what the store already says. */
    method Apply(a: Allocation, fault: Option<RuntimeError>) returns (error: Option<ServiceError>)
      requires Valid() && a.id in repo.tables.allocations && Hydrated(repo.tables, a.id) == Some(a)
      modifies runtime, this`suspect
      ensures Valid()
      ensures error == if fault.None? then None else Some(RuntimeFailed(fault.value))
      ensures runtime.calls == old(runtime.calls) + [(Call.Update(a), fault.None?)]
      ensures if error.None? || runtime.keepsFailed
              then runtime.allocations == old(runtime.allocations)[a.id := a] && suspect == old(suspect) - {a.id}
              else runtime.allocations == old(runtime.allocations) && suspect == old(suspect)
    {
      ghost var before := runtime.allocations;
      if kindred { HydratedIsKin(repo.tables, before, a); }
      var applied := runtime.Update(a, fault);
      if applied.Ok? || runtime.keepsFailed {
        Told(repo.tables, before, runtime.allocations, suspect, a);
        suspect := suspect - {a.id};
      }
      error := if applied.Err? then Some(RuntimeFailed(applied.error)) else None;
    }

    /** On success the runtime was given exactly what reads now return, and the binding is as promised. */
    method PutBinding(id: string, host: string, targetPort: Port, now: int, faults: Faults)
      returns (r: Result<Binding, ServiceError>)
      requires Valid()
      modifies repo, runtime, this`suspect
      ensures Valid() && PortsKept(old(repo.tables), repo.tables) && CreationKept(old(repo.tables), repo.tables, {})
      ensures TidyKept(old(repo.tables), repo.tables)
      ensures OthersUntouched(old(repo.tables), repo.tables, old(runtime.allocations), runtime.allocations, id)
      ensures suspect <= old(suspect) + {id}
      ensures r.Ok? ==>
                && id !in suspect && id in old(repo.tables.allocations)
                && r.value.allocationId == id && r.value.host == Some(host) && r.value.targetPort == targetPort
                && r.value.updatedAtMs == now
                && r.value.createdAtMs ==
                   (if id in old(repo.tables.bindings) then old(repo.tables.bindings)[id].createdAtMs else now)
                && GetBinding(repo.tables, id) == Ok(Some(r.value))
                && Hydrated(old(repo.tables), id).Some?
                && Hydrated(repo.tables, id) == Some(WithBinding(Hydrated(old(repo.tables), id).value, r.value))
                && Asked(old(runtime.calls), runtime.calls, Call.Update(Hydrated(repo.tables, id).value))
      ensures !validHost(host) ==> r == Err(InvalidHost)
      ensures validHost(host) && faults.readFails ==> r == Err(RepositoryFailed(Database))
      ensures validHost(host) && !faults.readFails && id !in old(repo.tables.allocations) ==> r == Err(NotFound)
      ensures validHost(host) && !faults.readFails && id in old(repo.tables.allocations)
              && Hydrated(old(repo.tables), id).Some?
              ==> (r.Ok? <==> !faults.writeFails && !failpoints.updateTimeout && faults.runtime.None?)
                  && (r.Err? ==> WriteError(failpoints.updateTimeout, faults) == Some(r.error))
    {
      if !validHost(host) {
        return Err(InvalidHost);
      }
      if faults.readFails {
        return Err(RepositoryFailed(Database));
      }
      match GetWithBinding(repo.tables, id)
      case Err(e) =>
        ReadingsAgree(repo.tables, id);
        return Err(RepositoryFailed(e));
      case Ok(None) =>
        return Err(NotFound);
      case Ok(Some((allocation, existing))) =>
        ReadingsAgree(repo.tables, id);
        var created := if existing.Some? then existing.value.createdAtMs else now;
        var binding := Binding(id, targetPort, Some(host), created, now);
        var error := StoreAndApply(allocation, existing, binding, faults);
        if error.Some? {
          return Err(error.value);
        }
        r := Ok(binding);
    }

    /** Like PutBinding, with the missing part of the target taken from what is stored. */
    method UpdateAllocation(id: string, targetPort: Option<Port>, host: Option<string>, now: int, faults: Faults)
      returns (r: Result<Allocation, ServiceError>)
      requires Valid()
      modifies repo, runtime, this`suspect
      ensures Valid() && PortsKept(old(repo.tables), repo.tables) && CreationKept(old(repo.tables), repo.tables, {})
      ensures TidyKept(old(repo.tables), repo.tables)
      ensures OthersUntouched(old(repo.tables), repo.tables, old(runtime.allocations), runtime.allocations, id)
      ensures suspect <= old(suspect) + {id}
      ensures r.Ok? ==>
                && id !in suspect && id in old(repo.tables.allocations)
                && Hydrated(repo.tables, id) == Some(r.value) && Hydrated(old(repo.tables), id).Some?
                && var was := Hydrated(old(repo.tables), id).value;
                && r.value.host == (if host.Some? then host else was.host)
                && (targetPort.Some? || was.targetPort.Some?)
                && r.value.targetPort == (if targetPort.Some? then targetPort else was.targetPort)
                && r.value == was.(host := r.value.host, targetPort := r.value.targetPort, updatedAtMs := now)
                && Asked(old(runtime.calls), runtime.calls, Call.Update(r.value))
                && id in repo.tables.bindings
                && (id in old(repo.tables.bindings) || repo.tables.bindings[id].createdAtMs == now)
      ensures faults.readFails ==> r == Err(RepositoryFailed(Database))
      ensures !faults.readFails && Hydrated(old(repo.tables), id).Some? && host.Some? && !validHost(host.value) ==>
                r == Err(InvalidHost)
      ensures !faults.readFails && id !in old(repo.tables.allocations) ==> r == Err(NotFound)
      ensures (&& !faults.readFails && Hydrated(old(repo.tables), id).Some? && (host.Some? ==> validHost(host.value))
               && targetPort.None? && id !in old(repo.tables.bindings)) ==> r == Err(NotFound)
      ensures (&& !faults.readFails && Hydrated(old(repo.tables), id).Some? && (host.Some? ==> validHost(host.value))
               && (targetPort.Some? || id in old(repo.tables.bindings)))
              ==> (r.Ok? <==> !faults.writeFails && !failpoints.updateTimeout && faults.runtime.None?)
                  && (r.Err? ==> WriteError(failpoints.updateTimeout, faults) == Some(r.error))
    {
      if faults.readFails {
        return Err(RepositoryFailed(Database));
      }
      match GetWithBinding(repo.tables, id)
      case Err(e) =>
        ReadingsAgree(repo.tables, id);
        return Err(RepositoryFailed(e));
      case Ok(None) =>
        return Err(NotFound);
      case Ok(Some((allocation, existing))) =>
        ReadingsAgree(repo.tables, id);
        if host.Some? && !validHost(host.value) {
          return Err(InvalidHost);
        }
        if targetPort.None? && existing.None? {
          return Err(NotFound);
        }
        var port := if targetPort.Some? then targetPort.value else existing.value.targetPort;
        var resolved := Or(host, Or(if existing.Some? then existing.value.host else None, allocation.host));
        var created := if existing.Some? then existing.value.createdAtMs else now;
        var binding := Binding(id, port, resolved, created, now);
        var error := StoreAndApply(allocation, existing, binding, faults);
        if error.Some? {
          return Err(error.value);
        }
        r := Ok(WithBinding(allocation, binding));
    }

    method DeleteBinding(id: string, now: int, faults: Faults) returns (r: Result<(), ServiceError>)
      requires Valid()
      modifies repo, runtime, this`suspect
      ensures Valid() && PortsKept(old(repo.tables), repo.tables) && CreationKept(old(repo.tables), repo.tables, {id})
      ensures TidyKept(old(repo.tables), repo.tables)
      ensures OthersUntouched(old(repo.tables), repo.tables, old(runtime.allocations), runtime.allocations, id)
      ensures suspect <= old(suspect) + {id}
      ensures r.Ok? ==>
                && id !in suspect && id in old(repo.tables.bindings) && Hydrated(old(repo.tables), id).Some?
                && Hydrated(repo.tables, id)
                   == Some(Hydrated(old(repo.tables), id).value.(targetPort := None, host := None, updatedAtMs := now))
                && Asked(old(runtime.calls), runtime.calls, Call.Update(Hydrated(repo.tables, id).value))
                && GetBinding(repo.tables, id) == Ok(None)
      ensures faults.readFails ==> r == Err(RepositoryFailed(Database))
      ensures !faults.readFails && (id !in old(repo.tables.allocations)
                                    || (Hydrated(old(repo.tables), id).Some? && id !in old(repo.tables.bindings)))
              ==> r == Err(NotFound)
      ensures !faults.readFails && Hydrated(old(repo.tables), id).Some? && id in old(repo.tables.bindings)
              ==> (r.Ok? <==> !faults.writeFails && !failpoints.updateTimeout && faults.runtime.None?)
                  && (r.Err? ==> WriteError(failpoints.updateTimeout, faults) == Some(r.error))
    {
      if faults.readFails {
        return Err(RepositoryFailed(Database));
      }
      match GetWithBinding(repo.tables, id)
      case Err(e) =>
        ReadingsAgree(repo.tables, id);
        return Err(RepositoryFailed(e));
      case Ok(None) =>
        return Err(NotFound);
      case Ok(Some((allocation, existing))) =>
        ReadingsAgree(repo.tables, id);
        if existing.None? {
          return Err(NotFound);
        }
        r := ClearAndApply(allocation, now, faults);
    }

    method ClearAndApply(a: Allocation, now: int, faults: Faults) returns (r: Result<(), ServiceError>)
      requires Valid() && a.id in repo.tables.allocations && a.id in repo.tables.bindings
      requires Hydrated(repo.tables, a.id) == Some(a)
      modifies repo, runtime, this`suspect
      ensures Valid() && PortsKept(old(repo.tables), repo.tables) && CreationKept(old(repo.tables), repo.tables, {a.id})
      ensures TidyKept(old(repo.tables), repo.tables)
      ensures OthersUntouched(old(repo.tables), repo.tables, old(runtime.allocations), runtime.allocations, a.id)
      ensures suspect <= old(suspect) + {a.id}
      ensures r.Ok? ==>
                && a.id !in suspect
                && Hydrated(repo.tables, a.id) == Some(a.(targetPort := None, host := None, updatedAtMs := now))
                && Asked(old(runtime.calls), runtime.calls, Call.Update(Hydrated(repo.tables, a.id).value))
                && GetBinding(repo.tables, a.id) == Ok(None)
      ensures if r.Ok? then WriteError(failpoints.updateTimeout, faults) == None
              else WriteError(failpoints.updateTimeout, faults) == Some(r.error)
    {
      ghost var t, before := repo.tables, runtime.allocations;
      var error := ClearBinding(a, now, faults.writeFails);
      if error.Some? {
        return Err(error.value);
      }
      if failpoints.updateTimeout {
        return Err(Timeout);
      }
      error := Apply(a.(targetPort := None, host := None, updatedAtMs := now), faults.runtime);
      AlsoApplied(t, repo.tables, before, runtime.allocations, a.id);
      r := if error.Some? then Err(error.value) else Ok(());
    }

    /** Delete the binding from the store; until the runtime is told, the id is out of step. */
    method ClearBinding(a: Allocation, now: int, fails: bool) returns (error: Option<ServiceError>)
      requires Valid() && a.id in repo.tables.allocations && a.id in repo.tables.bindings
      requires Hydrated(repo.tables, a.id) == Some(a)
      modifies repo, this`suspect
      ensures Valid() && PortsKept(old(repo.tables), repo.tables) && CreationKept(old(repo.tables), repo.tables, {a.id})
      ensures TidyKept(old(repo.tables), repo.tables)
      ensures OthersUntouched(old(repo.tables), repo.tables, runtime.allocations, runtime.allocations, a.id)
      ensures error == if fails then Some(RepositoryFailed(Database)) else None
      ensures error.Some? ==> suspect == old(suspect) && repo.tables == old(repo.tables)
      ensures error.None? ==>
                && suspect == old(suspect) + {a.id} && a.id in repo.tables.allocations
                && Hydrated(repo.tables, a.id) == Some(a.(targetPort := None, host := None, updatedAtMs := now))
                && GetBinding(repo.tables, a.id) == Ok(None)
    {
      ghost var t := repo.tables;
      var deleted := repo.DeleteBinding(a.id, now, fails);
      if deleted.Err? {
        return Some(RepositoryFailed(deleted.error));
      }
      if !deleted.value {
        return Some(NotFound);
      }
      ClearHydrates(t, repo.tables, a, now);
      if kindred { RewriteKeepsKin(t, repo.tables, runtime.allocations); }
      OneTidied(t, repo.tables, runtime.allocations, runtime.allocations, a.id);
      suspect := suspect + {a.id};
      KeepOthers(t, repo.tables, runtime.allocations, runtime.allocations, suspect, a.id);
      error := None;
    }

    /**
     Remove from the runtime, then from the store.  Only the failpoint path puts the runtime entry
     back; a failing store leaves the row without a runtime entry.
     */
    method DeleteAllocation(id: string, faults: Faults) returns (r: Result<(), ServiceError>)
      requires Valid()
      modifies repo, runtime, this`suspect
      ensures Valid() && PortsKept(old(repo.tables), repo.tables) && CreationKept(old(repo.tables), repo.tables, {id})
      ensures TidyKept(old(repo.tables), repo.tables)
      ensures OthersUntouched(old(repo.tables), repo.tables, old(runtime.allocations), runtime.allocations, id)
      ensures suspect <= old(suspect) + {id}
      ensures r.Ok? ==> && id !in suspect && id in old(repo.tables.allocations)
                        && id !in repo.tables.allocations && id !in repo.tables.bindings && id !in runtime.allocations
      ensures r.Ok? ==> Asked(old(runtime.calls), runtime.calls, Call.Delete(id))
      ensures r == Err(DeletePersistenceFailed) ==>
                && Hydrated(repo.tables, id).Some?
                && var putBack := Call.Restore(Hydrated(repo.tables, id).value);
                runtime.calls == old(runtime.calls) + [(Call.Delete(id), true), (putBack, true)]
      ensures r.Err? ==> repo.tables == old(repo.tables)
      ensures r == Err(DeletePersistenceFailed) ==>
              id !in suspect && runtime.allocations.Keys == old(runtime.allocations).Keys + {id}
      ensures faults.readFails ==> r == Err(RepositoryFailed(Database))
      ensures !faults.readFails && Hydrated(old(repo.tables), id).Some? && failpoints.deleteTimeout ==>
                r == Err(Timeout) && runtime.allocations == old(runtime.allocations)
      ensures !faults.readFails && Hydrated(old(repo.tables), id).Some? && !failpoints.deleteTimeout ==>
                (faults.runtime.Some? ==> r == Err(RuntimeFailed(faults.runtime.value)))
      ensures !faults.readFails && id !in old(repo.tables.allocations) ==> r == Err(NotFound)
      ensures !faults.readFails && Hydrated(old(repo.tables), id).Some? ==>
                (r.Ok? <==> && faults.runtime.None? && !faults.writeFails
                            && !failpoints.deleteTimeout && !failpoints.deleteDbFailure)
      ensures !faults.readFails && Hydrated(old(repo.tables), id).Some? && faults.runtime.None?
              && !failpoints.deleteTimeout && !failpoints.deleteDbFailure && faults.writeFails
              ==> r.Err? && id in repo.tables.allocations && id !in runtime.allocations
      ensures old(Synced(repo.tables, runtime.allocations, id)) ==>
                (Synced(repo.tables, runtime.allocations, id) <==>
                 !(&& !faults.readFails && id in old(repo.tables.allocations) && !failpoints.deleteTimeout
                   && LosesEntry(faults)))
    {
      if faults.readFails {
        return Err(RepositoryFailed(Database));
      }
      match GetAllocation(repo.tables, id)
      case Err(e) =>
        return Err(RepositoryFailed(e));
      case Ok(None) =>
        return Err(NotFound);
      case Ok(Some(allocation)) =>
        if failpoints.deleteTimeout {
          return Err(Timeout);
        }
        r := RemoveEverywhere(allocation, faults);
    }

    /** The runtime drops the entry, the row stays, and nothing brings the entry back. */
    ghost predicate LosesEntry(faults: Faults)
      reads this
    {
      && faults.runtime.None?
      && if failpoints.deleteDbFailure then faults.rollback.Some? && !runtime.keepsFailed else faults.writeFails
    }

    method RemoveEverywhere(a: Allocation, faults: Faults) returns (r: Result<(), ServiceError>)
      requires Valid() && a.id in repo.tables.allocations && Hydrated(repo.tables, a.id) == Some(a)
      modifies repo, runtime, this`suspect
      ensures Valid() && PortsKept(old(repo.tables), repo.tables) && CreationKept(old(repo.tables), repo.tables, {a.id})
      ensures TidyKept(old(repo.tables), repo.tables)
      ensures OthersUntouched(old(repo.tables), repo.tables, old(runtime.allocations), runtime.allocations, a.id)
      ensures suspect <= old(suspect) + {a.id}
      ensures r.Ok? ==> && a.id !in suspect && a.id !in repo.tables.allocations && a.id !in repo.tables.bindings
                        && a.id !in runtime.allocations
      ensures r.Ok? ==> Asked(old(runtime.calls), runtime.calls, Call.Delete(a.id))
      ensures r == Err(DeletePersistenceFailed) ==>
                runtime.calls == old(runtime.calls) + [(Call.Delete(a.id), true), (Call.Restore(a), true)]
      ensures r.Err? ==> repo.tables == old(repo.tables)
      ensures r == Err(DeletePersistenceFailed) ==>
                a.id !in suspect && runtime.allocations.Keys == old(runtime.allocations).Keys + {a.id}
      ensures faults.runtime.Some? ==> r == Err(RuntimeFailed(faults.runtime.value))
      ensures r != Err(NotFound)
      ensures r.Ok? <==> faults.runtime.None? && !failpoints.deleteDbFailure && !faults.writeFails
      ensures faults.runtime.None? && !failpoints.deleteDbFailure && faults.writeFails
              ==> r.Err? && a.id !in runtime.allocations
      ensures old(Synced(repo.tables, runtime.allocations, a.id)) ==>
                (Synced(repo.tables, runtime.allocations, a.id) <==> !LosesEntry(faults))
    {
      ghost var t, before, calls := repo.tables, runtime.allocations, runtime.calls;
      var error := DropEntry(a.id, faults.runtime);
      if error.Some? {
        return Err(error.value);
      }
      RemovedFromRuntime(t, before, a);
      if failpoints.deleteDbFailure {
        r := PutBack(a, faults.rollback);
        assert runtime.calls == calls + [(Call.Delete(a.id), true), (Call.Restore(a), faults.rollback.None?)];
      } else {
        r := RemoveRow(a, faults.writeFails);
      }
    }

    /** Take the entry out of the runtime; until the row follows, the id is out of step. */
    method DropEntry(id: string, fault: Option<RuntimeError>) returns (error: Option<ServiceError>)
      requires Valid()
      modifies runtime, this`suspect
      ensures Valid() && error == if fault.None? then None else Some(RuntimeFailed(fault.value))
      ensures runtime.calls == old(runtime.calls) + [(Call.Delete(id), fault.None?)]
      ensures if error.None?
              then runtime.allocations == old(runtime.allocations) - {id} && suspect == old(suspect) + {id}
              else runtime.allocations == old(runtime.allocations) && suspect == old(suspect)
    {
      ghost var before := runtime.allocations;
      var removed := runtime.Delete(id, fault);
      if removed.Err? {
        return Some(RuntimeFailed(removed.error));
      }
      if kindred { RemovalKeepsKin(repo.tables, before, id); }
      suspect := suspect + {id};
      KeepOthers(repo.tables, repo.tables, before, runtime.allocations, suspect, id);
      error := None;
    }

    /** The failpoint path: the row was never touched, so the runtime entry is put back. */
    method PutBack(a: Allocation, rollback: Option<RuntimeError>) returns (r: Result<(), ServiceError>)
      requires Valid() && Hydrated(repo.tables, a.id) == Some(a) && a.id in repo.tables.allocations
      requires a.id in suspect && a.id !in runtime.allocations
      modifies runtime, this`suspect
      ensures Valid() && suspect <= old(suspect) && (rollback.None? ==> a.id !in suspect)
      ensures r == Err(if rollback.None? then DeletePersistenceFailed else RuntimeFailed(rollback.value))
      ensures runtime.calls == old(runtime.calls) + [(Call.Restore(a), rollback.None?)]
      ensures runtime.allocations == if rollback.None? || runtime.keepsFailed then old(runtime.allocations)[a.id := a]
                                     else old(runtime.allocations)
    {
      r := RestoreOne(a, rollback);
      if r.Ok? { r := Err(DeletePersistenceFailed); }
    }

    /** The ordinary path: the store forgets the id as well, or keeps a row the runtime no longer knows. */
    method RemoveRow(a: Allocation, writeFails: bool) returns (r: Result<(), ServiceError>)
      requires Valid() && a.id in repo.tables.allocations && a.id in suspect && a.id !in runtime.allocations
      modifies repo, this`suspect
      ensures Valid() && r == (if writeFails then Err(RepositoryFailed(Database)) else Ok(()))
      ensures suspect == if r.Ok? then old(suspect) - {a.id} else old(suspect)
      ensures repo.tables == if r.Ok?
                             then Tables(old(repo.tables.allocations) - {a.id}, old(repo.tables.bindings) - {a.id})
                             else old(repo.tables)
      ensures TidyKept(old(repo.tables), repo.tables)
    {
      ghost var t := repo.tables;
      var deleted := repo.DeleteAllocation(a.id, writeFails);
      if deleted.Err? {
        return Err(RepositoryFailed(deleted.error));
      }
      if !deleted.value {
        return Err(NotFound);
      }
      if kindred { RewriteKeepsKin(t, repo.tables, runtime.allocations); }
      OneTidied(t, repo.tables, runtime.allocations, runtime.allocations, a.id);
      suspect := suspect - {a.id};
      KeepOthers(t, repo.tables, runtime.allocations, runtime.allocations, suspect, a.id);
      r := Ok(());
    }

    /** The id generator never hands out an id that is in use anywhere. */
    method NewId() returns (id: string)
      ensures id !in repo.tables.allocations && id !in repo.tables.bindings && id !in runtime.allocations
    {
      ghost var stored := repo.tables.allocations.Keys + repo.tables.bindings.Keys;
      ghost var unused := FreshString(stored + runtime.allocations.Keys);
      id :| id !in repo.tables.allocations && id !in repo.tables.bindings && id !in runtime.allocations;
    }

    method Persist(a: Allocation, fails: bool) returns (r: Result<(), RepositoryError>)
      requires a.host == None && a.id !in repo.tables.allocations && a.id !in repo.tables.bindings
      requires !Taken(repo.tables, a.protocol, a.port as int)
      modifies repo
      ensures r.Ok? == !fails
      ensures r.Err? ==> repo.tables == old(repo.tables)
      ensures r.Ok? ==> CreatedRow(old(repo.tables), repo.tables, a)
    {
      FreePassesIndex(repo.tables, a);
      if a.targetPort.Some? {
        var binding := Binding(a.id, a.targetPort.value, a.host, a.createdAtMs, a.updatedAtMs);
        r := repo.InsertWithBinding(a, binding, fails);
      } else {
        r := repo.InsertAllocation(a, fails);
      }
      if r.Ok? { InsertHydrates(repo.tables, a); }
    }

    /** One turn of the search, on a port no row has. */
    method TryPort(protocol: Protocol, targetPort: Option<Port>, port: Port, now: int, faults: CreateFaults)
      returns (attempt: Attempt, ghost born: Option<string>)
      requires Valid() && !Taken(repo.tables, protocol, port as int)
      modifies repo, runtime, this`suspect
      ensures Valid() && Newborn(old(repo.tables), old(runtime.allocations), born)
      ensures born.None? <==> faults.runtimeCreate(port).Some?
      ensures born.None? ==> runtime.allocations == old(runtime.allocations)
      ensures attempt.Next? <==> faults.runtimeCreate(port) == Some(RuntimeCreateFailed)
      ensures attempt.Next? ==> repo.tables == old(repo.tables) && runtime.allocations == old(runtime.allocations)
                                && suspect == old(suspect)
      ensures attempt.Finished? && attempt.result.Ok? ==>
                Created(old(repo.tables), repo.tables, old(runtime.allocations), runtime.allocations,
                        Allocation(attempt.result.value.id, protocol, port, targetPort, None, now, now))
                && attempt.result.value ==
                   Allocation(attempt.result.value.id, protocol, port, targetPort, None, now, now)
      ensures attempt.Next? ==> Tried(old(runtime.calls), runtime.calls)
      ensures attempt.Finished? && attempt.result.Ok? ==>
                Asked(old(runtime.calls), runtime.calls, Call.Create(attempt.result.value))
      ensures attempt.Finished? && attempt.result.Err? ==> repo.tables == old(repo.tables)
      ensures suspect <= CreateFailed(old(suspect), attempt.Finished? && attempt.result.Ok?, born, faults.rollback)
      ensures attempt.Finished? && attempt.result.Ok? ==> born == Some(attempt.result.value.id)
      ensures attempt.Finished? ==>
                (attempt.result.Ok? <==> faults.runtimeCreate(port).None? && !faults.insertFails)
                && (faults.runtimeCreate(port).Some? ==>
                    attempt.result == Err(RuntimeFailed(faults.runtimeCreate(port).value)))
                && (faults.runtimeCreate(port).None? && faults.insertFails ==>
                    attempt.result == Err(RepositoryFailed(Database)))
    {
      var id := NewId();
      var a := Allocation(id, protocol, port, targetPort, None, now, now);
      ghost var t, before := repo.tables, runtime.allocations;
      born := None;
      var created := runtime.Create(a, faults.runtimeCreate(port));
      if created.Err? {
        attempt := if created.error == RuntimeCreateFailed then Next else Finished(Err(RuntimeFailed(created.error)));
        return;
      }
      if kindred { NewIsKin(t, before, a); }
      born := Some(id);
      suspect := suspect + {id};
      KeepOthers(t, repo.tables, before, runtime.allocations, suspect, id);
      var stored := StoreCreated(a, faults);
      if stored.Ok? { CreatedWhole(t, repo.tables, before, runtime.allocations, a); }
      attempt := Finished(stored);
    }

    /** Store what the runtime has accepted, or take it back from the runtime. */
    method StoreCreated(a: Allocation, faults: CreateFaults) returns (r: Result<Allocation, ServiceError>)
      requires Valid() && a.host == None && a.id !in repo.tables.allocations && a.id !in repo.tables.bindings
      requires a.id in suspect && a.id in runtime.allocations && runtime.allocations[a.id] == a
      requires !Taken(repo.tables, a.protocol, a.port as int)
      modifies repo, runtime, this`suspect
      ensures Valid() && r == if faults.insertFails then Err(RepositoryFailed(Database)) else Ok(a)
      ensures if r.Ok? then CreatedRow(old(repo.tables), repo.tables, a) else repo.tables == old(repo.tables)
      ensures runtime.calls == old(runtime.calls)
                               + if r.Ok? then [] else [(Call.Delete(a.id), faults.rollback.None?)]
      ensures runtime.allocations == if r.Err? && faults.rollback.None? then old(runtime.allocations) - {a.id}
                                     else old(runtime.allocations)
      ensures suspect == if r.Err? && faults.rollback.Some? then old(suspect) else old(suspect) - {a.id}
    {
      ghost var t, before := repo.tables, runtime.allocations;
      var persisted := Persist(a, faults.insertFails);
      if persisted.Err? {
        var rolledBack := runtime.Delete(a.id, faults.rollback);
        if kindred { RemovalKeepsKin(t, before, a.id); }
        KeepOthers(t, repo.tables, before, runtime.allocations, suspect, a.id);
        if rolledBack.Ok? { suspect := suspect - {a.id}; }
        return Err(RepositoryFailed(Database));
      }
      if kindred {
        NewIsKin(t, before, a);
        assert before[a.id := a] == before;
      }
      RowTouchesOne(t, repo.tables, before, a);
      KeepOthers(t, repo.tables, before, before, suspect, a.id);
      suspect := suspect - {a.id};
      r := Ok(a);
    }

    /**
     Search the range for the least port that no conflicting row has and the runtime can bind.
     The result is determined by the table and the faults, and a failed create never adds a row.
     */
    method CreateAllocation(protocol: Protocol, targetPort: Option<Port>, now: int, faults: CreateFaults)
      returns (r: Result<Allocation, ServiceError>, ghost born: Option<string>)
      requires Valid()
      modifies repo, runtime, this`suspect
      ensures Valid() && Newborn(old(repo.tables), old(runtime.allocations), born)
      ensures born.None? ==> runtime.allocations == old(runtime.allocations)
      ensures r.Err? ==> repo.tables == old(repo.tables)
      ensures suspect <= CreateFailed(old(suspect), r.Ok?, born, faults.rollback)
      ensures r.Ok? ==>
                && born == Some(r.value.id)
                && |runtime.calls| > |old(runtime.calls)|
                && runtime.calls[|runtime.calls| - 1] == (Call.Create(r.value), true)
                && Tried(old(runtime.calls), runtime.calls[..|runtime.calls| - 1])
                && start <= r.value.port <= end
                && r.value == Allocation(r.value.id, protocol, r.value.port, targetPort, None, now, now)
                && Created(old(repo.tables), repo.tables, old(runtime.allocations), runtime.allocations, r.value)
                && !old(Taken(repo.tables, protocol, r.value.port as int))
                && (forall q: int :: start as int <= q < r.value.port as int ==>
                    Skipped(old(repo.tables), protocol, faults, q))
      ensures (&& !failpoints.createTimeout && forall p :: !faults.queryFails(p)) ==>
                (r == Err(NoAvailablePort) <==>
                 forall q: int :: start as int <= q <= end as int ==> Skipped(old(repo.tables), protocol, faults, q))
      ensures r.Err? && r.error.RuntimeFailed? ==> r.error.runtime != RuntimeCreateFailed
      ensures failpoints.createTimeout ==> r == Err(Timeout) && born == None
      ensures !failpoints.createTimeout && OnlyBindFaults(faults) ==> r.Ok? || r == Err(NoAvailablePort)
    {
      born := None;
      if failpoints.createTimeout {
        r := Err(Timeout);
        return;
      }
      var next := Some(start);
      ghost var tried := start as int;
      while next.Some?
        invariant Valid() && repo.tables == old(repo.tables) && runtime.allocations == old(runtime.allocations)
        invariant suspect == old(suspect) && born == None && Tried(old(runtime.calls), runtime.calls)
        invariant start as int <= tried <= 65536
        invariant next == if tried < 65536 then Some(tried as Port) else None
        invariant forall q: int :: start as int <= q < tried && q <= end as int ==>
                  Skipped(repo.tables, protocol, faults, q)
        invariant next.Some? || end as int < tried
        decreases 65536 - tried
      {
        if faults.queryFails(next.value) {
          r := Err(RepositoryFailed(Database));
          return;
        }
        var found := FindAvailablePort(repo.tables, protocol, next.value, end);
        PassedOver(repo.tables, protocol, tried, end as int);
        if found.value.None? {
          assert forall q: int :: tried <= q <= end as int ==> Taken(repo.tables, protocol, q);
          break;
        }
        var port := found.value.value;
        assert forall q: int :: tried <= q < port as int ==> Taken(repo.tables, protocol, q);
        assert forall q: int :: start as int <= q < port as int ==> Skipped(repo.tables, protocol, faults, q);
        ghost var accepted: Option<string>;
        var attempt;
        ghost var calls := runtime.calls;
        attempt, accepted := TryPort(protocol, targetPort, port, now, faults);
        if attempt.Finished? {
          assert !Skipped(old(repo.tables), protocol, faults, port as int);
          r, born := attempt.result, accepted;
          assert r.Ok? ==> runtime.calls[..|runtime.calls| - 1] == calls;
          return;
        }
        TriedOn(old(runtime.calls), calls, runtime.calls);
        tried := port as int + 1;
        next := if port < 65535 then Some(port + 1) else None;
      }
      r := Err(NoAvailablePort);
    }

    /**
     Restore every stored allocation.  On success the runtime holds exactly the hydrated store on top
     of what it held before; a failure part of the way through never puts a synced id out of step.
     */
    method RestoreAll(initFault: Option<RuntimeError>, listFails: bool, restoreFault: string -> Option<RuntimeError>)
      returns (r: Result<(), ServiceError>)
      requires Valid()
      modifies runtime, this`suspect
      ensures Valid() && suspect <= old(suspect)
      ensures r.Ok? ==> forall id :: id in repo.tables.allocations ==>
                id !in suspect && Hydrated(repo.tables, id).Some?
                && id in runtime.allocations && runtime.allocations[id] == Hydrated(repo.tables, id).value
      ensures r.Ok? ==> runtime.allocations.Keys == old(runtime.allocations).Keys + repo.tables.allocations.Keys
      ensures r.Ok? <==> && initFault.None? && !listFails
                         && forall id :: id in repo.tables.allocations ==>
                              Hydrated(repo.tables, id).Some? && restoreFault(id).None?
      ensures OnTop(old(runtime.allocations), runtime.allocations, repo.tables)
      ensures Restoring(old(runtime.calls), runtime.calls, initFault.None?)
    {
      var initialized := runtime.Initialize(initFault);
      if initialized.Err? {
        return Err(RuntimeFailed(initialized.error));
      }
      var listed := repo.ListAllocations(listFails);
      if listed.Err? {
        return Err(RepositoryFailed(listed.error));
      }
      ListedInStore(repo.tables, listed.value);
      r := RestoreList(listed.value, restoreFault);
      ListedCovers(repo.tables, listed.value, restoreFault);
      if r.Ok? { AllRestored(repo.tables, runtime.allocations, suspect, listed.value); }
    }

    method RestoreOne(a: Allocation, fault: Option<RuntimeError>) returns (r: Result<(), ServiceError>)
      requires Valid() && Hydrated(repo.tables, a.id) == Some(a)
      modifies runtime, this`suspect
      ensures Valid()
      ensures r == if fault.None? then Ok(()) else Err(RuntimeFailed(fault.value))
      ensures runtime.calls == old(runtime.calls) + [(Call.Restore(a), fault.None?)]
      ensures if r.Ok? || runtime.keepsFailed
              then runtime.allocations == old(runtime.allocations)[a.id := a] && suspect == old(suspect) - {a.id}
              else runtime.allocations == old(runtime.allocations) && suspect == old(suspect)
    {
      ghost var before := runtime.allocations;
      if kindred { HydratedIsKin(repo.tables, before, a); }
      var restored := runtime.Restore(a, fault);
      if restored.Ok? || runtime.keepsFailed {
        Told(repo.tables, before, runtime.allocations, suspect, a);
        suspect := suspect - {a.id};
      }
      r := if restored.Err? then Err(RuntimeFailed(restored.error)) else Ok(());
    }

    method RestoreList(list: seq<Allocation>, restoreFault: string -> Option<RuntimeError>)
      returns (r: Result<(), ServiceError>)
      requires Valid()
      requires forall k :: 0 <= k < |list| ==>
               list[k].id in repo.tables.allocations && Hydrated(repo.tables, list[k].id) == Some(list[k])
      modifies runtime, this`suspect
      ensures Valid() && suspect <= old(suspect) && OnTop(old(runtime.allocations), runtime.allocations, repo.tables)
      ensures r.Ok? ==> forall k :: 0 <= k < |list| ==> list[k].id !in suspect
      ensures r.Ok? <==> NoFault(list, restoreFault)
      ensures OnlyRestores(old(runtime.calls), runtime.calls)
    {
      for i := 0 to |list|
        invariant OnlyRestores(old(runtime.calls), runtime.calls)
        invariant Valid() && suspect <= old(suspect)
                  && OnTop(old(runtime.allocations), runtime.allocations, repo.tables)
        invariant forall k :: 0 <= k < i ==> list[k].id !in suspect && restoreFault(list[k].id).None?
      {
        r := RestoreOne(list[i], restoreFault(list[i].id));
        if r.Err? {
          return;
        }
      }
      r := Ok(());
    }
  }

  /** The runtime may have gained or refreshed entries for stored ids and changed nothing else. */
  ghost predicate OnTop(runtime: map<string, Allocation>, runtime': map<string, Allocation>, t: Tables) {
    && runtime.Keys <= runtime'.Keys <= runtime.Keys + t.allocations.Keys
    && forall id :: id in runtime && id !in t.allocations ==> runtime'[id] == runtime[id]
  }

  /** How the calls of one create fail, by port. */
  datatype CreateFaults = CreateFaults(
    queryFails: Port -> bool,
    runtimeCreate: Port -> Option<RuntimeError>,
    insertFails: bool,
    rollback: Option<RuntimeError>)

  /** The runtime was asked this, once, and agreed. */
  predicate Asked(before: seq<(Call, bool)>, calls: seq<(Call, bool)>, call: Call) {
    calls == before + [(call, true)]
  }

  /** The runtime was only asked to create, and did not. */
  ghost predicate Tried(before: seq<(Call, bool)>, calls: seq<(Call, bool)>) {
    && before <= calls
    && forall k :: |before| <= k < |calls| ==> calls[k].0.Create? && !calls[k].1
  }

  lemma TriedOn(before: seq<(Call, bool)>, calls: seq<(Call, bool)>, calls': seq<(Call, bool)>)
    requires Tried(before, calls) && Tried(calls, calls')
    ensures Tried(before, calls')
  {
  }

  /** The runtime was asked to restore, and nothing else. */
  ghost predicate OnlyRestores(before: seq<(Call, bool)>, calls: seq<(Call, bool)>) {
    before <= calls && forall k :: |before| <= k < |calls| ==> calls[k].0.Restore?
  }

  /** The runtime was first asked to initialize, and then only to restore. */
  ghost predicate Restoring(before: seq<(Call, bool)>, calls: seq<(Call, bool)>, initialized: bool) {
    OnlyRestores(before + [(Call.Initialize, initialized)], calls)
  }

  /** Nothing goes wrong but ports the runtime cannot bind. */
  ghost predicate OnlyBindFaults(faults: CreateFaults) {
    && !faults.insertFails
    && forall p :: !faults.queryFails(p) && faults.runtimeCreate(p) in {None, Some(RuntimeCreateFailed)}
  }

  /** The search passes over this port: a row has it, or the runtime could not bind it. */
  ghost predicate Skipped(t: Tables, protocol: Protocol, faults: CreateFaults, q: int) {
    0 <= q < 65536 && (Taken(t, protocol, q) || faults.runtimeCreate(q as Port) == Some(RuntimeCreateFailed))
  }

  /** The id a create handed to the runtime, if the runtime took it, was one that nothing used. */
  ghost predicate Newborn(t: Tables, runtime: map<string, Allocation>, born: Option<string>) {
    born.Some? ==> born.value !in t.allocations && born.value !in t.bindings && born.value !in runtime
  }

  function IdOf(born: Option<string>): set<string> {
    if born.Some? then {born.value} else {}
  }

  /** The ids out of step after a create: its own only if it failed and could not be undone either. */
  function CreateFailed(before: set<string>, ok: bool, born: Option<string>,
                        rollback: Option<RuntimeError>): set<string> {
    if ok then before - IdOf(born) else if rollback.Some? then before + IdOf(born) else before
  }

  datatype Attempt = Next | Finished(result: Result<Allocation, ServiceError>)

  /** The new row, with its binding if it has a target port, is all that was added. */
  ghost predicate CreatedRow(t: Tables, t': Tables, a: Allocation) {
    && Hydrated(t', a.id) == Some(a)
    && t'.allocations == t.allocations[a.id := RowOf(a)]
    && t'.bindings - {a.id} == t.bindings
    && (a.id in t'.bindings <==> a.targetPort.Some?)
    && CompleteAt(t', a.id) && MirroredAt(t', a.id)
  }

  lemma RowTouchesOne(t: Tables, t': Tables, runtime: map<string, Allocation>, a: Allocation)
    requires CreatedRow(t, t', a)
    ensures OthersUntouched(t, t', runtime, runtime, a.id)
  {
    forall other | other != a.id ensures Untouched(t, t', runtime, runtime, other) {
      assert BindingOf(t, other) == BindingOf(t', other) by {
        assert t'.bindings - {a.id} == t.bindings;
      }
    }
  }

  lemma CreatedWhole(t: Tables, t': Tables, runtime: map<string, Allocation>, runtime': map<string, Allocation>,
                     a: Allocation)
    requires a.id !in t.allocations && a.id !in t.bindings && a.id !in runtime
    requires CreatedRow(t, t', a) && runtime' == runtime[a.id := a]
    ensures Created(t, t', runtime, runtime', a)
  {
    RowTouchesOne(t, t', runtime, a);
    forall other | other != a.id ensures Untouched(t, t', runtime, runtime', other) {
      assert Untouched(t, t', runtime, runtime, other);
    }
  }

  /** A new allocation is in both tables and the runtime, readable as itself, and nothing else changed. */
  ghost predicate Created(t: Tables, t': Tables, runtime: map<string, Allocation>,
                          runtime': map<string, Allocation>, a: Allocation) {
    && a.id !in t.allocations && a.id !in t.bindings && a.id !in runtime
    && t'.allocations == t.allocations[a.id := RowOf(a)]
    && Hydrated(t', a.id) == Some(a)
    && CompleteAt(t', a.id) && MirroredAt(t', a.id)
    && runtime' == runtime[a.id := a]
    && OthersUntouched(t, t', runtime, runtime', a.id)
  }

  /** What the query passes over is taken, and what it finds is not. */
  lemma PassedOver(t: Tables, protocol: Protocol, start: int, end: int)
    ensures match PortSearch.Scan(Occupied(t, protocol, start, end), start, end)
            case Some(q) =>
              start <= q <= end && !Taken(t, protocol, q) && forall p :: start <= p < q ==> Taken(t, protocol, p)
            case None => forall p :: start <= p <= end ==> Taken(t, protocol, p)
  {
    PortSearch.ScanLeast(Occupied(t, protocol, start, end), start, end);
    forall p | start <= p <= end ensures p in Occupied(t, protocol, start, end) <==> Taken(t, protocol, p) {
      OccupiedIsTaken(t, protocol, start, end, p);
    }
  }

  lemma ListedInStore(t: Tables, list: seq<Allocation>)
    requires forall a :: a in list <==> Hydrated(t, a.id) == Some(a)
    ensures forall k :: 0 <= k < |list| ==> list[k].id in t.allocations && Hydrated(t, list[k].id) == Some(list[k])
  {
    forall k | 0 <= k < |list| ensures list[k].id in t.allocations && Hydrated(t, list[k].id) == Some(list[k]) {
      assert list[k] in list;
    }
  }

  ghost predicate NoFault(list: seq<Allocation>, restoreFault: string -> Option<RuntimeError>) {
    forall k :: 0 <= k < |list| ==> restoreFault(list[k].id).None?
  }

  /** The listing restores every row, so a fault for any row is met. */
  lemma ListedCovers(t: Tables, list: seq<Allocation>, restoreFault: string -> Option<RuntimeError>)
    requires forall id :: id in t.allocations ==> GetAllocation(t, id).Ok?
    requires forall a :: a in list <==> Hydrated(t, a.id) == Some(a)
    ensures NoFault(list, restoreFault)
            <==> forall id :: id in t.allocations ==> Hydrated(t, id).Some? && restoreFault(id).None?
  {
    ListedInStore(t, list);
    if NoFault(list, restoreFault) {
      forall id | id in t.allocations ensures Hydrated(t, id).Some? && restoreFault(id).None? {
        Readable(t, id);
        assert Hydrated(t, id).value in list;
      }
    }
  }

  lemma Readable(t: Tables, id: string)
    requires id in t.allocations && GetAllocation(t, id).Ok?
    ensures Hydrated(t, id).Some? && Hydrated(t, id).value.id == id
  {
  }

  /** Once every listed id is cleared of suspicion, the runtime holds the whole hydrated store. */
  lemma AllRestored(t: Tables, runtime: map<string, Allocation>, suspect: set<string>, list: seq<Allocation>)
    requires forall id :: id !in suspect ==> Synced(t, runtime, id)
    requires forall id :: id in t.allocations ==> GetAllocation(t, id).Ok?
    requires forall a :: a in list <==> Hydrated(t, a.id) == Some(a)
    requires forall k :: 0 <= k < |list| ==> list[k].id !in suspect
    ensures forall id :: id in t.allocations ==>
              id !in suspect && Hydrated(t, id).Some? && id in runtime && runtime[id] == Hydrated(t, id).value
  {
    forall id | id in t.allocations
      ensures id !in suspect && Hydrated(t, id).Some? && id in runtime && runtime[id] == Hydrated(t, id).value
    {
      Readable(t, id);
      assert Hydrated(t, id).value in list;
      assert Synced(t, runtime, id);
    }
  }

  /** A change of one id in the store, followed by one of the same id in the runtime. */
  lemma AlsoApplied(t: Tables, t': Tables, runtime: map<string, Allocation>, runtime': map<string, Allocation>,
                    id: string)
    requires OthersUntouched(t, t', runtime, runtime, id) && runtime' - {id} == runtime - {id}
    ensures OthersUntouched(t, t', runtime, runtime', id)
  {
    forall other | other != id ensures Untouched(t, t', runtime, runtime', other) {
      assert Untouched(t, t', runtime, runtime, other);
      assert other in runtime - {id} <==> other in runtime' - {id};
    }
  }

  /** What is left of one id when the runtime, and then perhaps the store, has dropped it, or it was put back. */
  lemma RemovedFromRuntime(t: Tables, runtime: map<string, Allocation>, a: Allocation)
    requires a.id in t.allocations && Hydrated(t, a.id) == Some(a)
    ensures OthersUntouched(t, t, runtime, runtime - {a.id}, a.id) && !Synced(t, runtime - {a.id}, a.id)
    ensures var runtime' := (runtime - {a.id})[a.id := a];
            OthersUntouched(t, t, runtime, runtime', a.id) && Synced(t, runtime', a.id)
    ensures var t' := Tables(t.allocations - {a.id}, t.bindings - {a.id});
            && OthersUntouched(t, t', runtime, runtime - {a.id}, a.id) && Synced(t', runtime - {a.id}, a.id)
            && PortsKept(t, t') && CreationKept(t, t', {a.id})
  {
  }

  /** Once the runtime is told what the store says of an id, that id is in step and the others stay so. */
  lemma Told(t: Tables, runtime: map<string, Allocation>, runtime': map<string, Allocation>, suspect: set<string>,
             a: Allocation)
    requires forall id :: id !in suspect ==> Synced(t, runtime, id)
    requires a.id in t.allocations && Hydrated(t, a.id) == Some(a) && runtime' == runtime[a.id := a]
    ensures forall id :: id !in suspect - {a.id} ==> Synced(t, runtime', id)
  {
    forall id | id !in suspect - {a.id} ensures Synced(t, runtime', id) {
      if id != a.id { assert Synced(t, runtime, id); }
    }
  }

  /** Where only one id was touched, every other id stays as much in step as it was. */
  lemma KeepOthers(t: Tables, t': Tables, runtime: map<string, Allocation>, runtime': map<string, Allocation>,
                   suspect: set<string>, id: string)
    requires OthersUntouched(t, t', runtime, runtime', id)
    requires forall other :: other !in suspect && other != id ==> Synced(t, runtime, other)
    ensures forall other :: other !in suspect && other != id ==> Synced(t', runtime', other)
  {
    forall other | other !in suspect && other != id ensures Synced(t', runtime', other) {
      assert Untouched(t, t', runtime, runtime', other);
      UntouchedStaysSynced(t, t', runtime, runtime', other);
    }
  }
}
