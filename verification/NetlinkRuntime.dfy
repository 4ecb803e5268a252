/**
 The netlink runtime: the stored allocations, the stale flag and the kernel ruleset, kept in
 step by a backend that can fail at any time and then leave the kernel in any state.
 */
module NetlinkRuntime {
  import opened Model
  import opened NftCompiler
  import opened NetlinkRules
  import NftBackend
  import opened Runtimes
  import opened NetlinkSteps

  /** What is stored after these calls: a failed create or delete is forgotten, a failed update or restore is not. */
  function Stored(ops: seq<(Call, Option<Fault>)>, before: Allocations): Allocations {
    if ops == [] then before
    else
      var last := ops[|ops| - 1];
      Effect(true, last.0, last.1.None?, Stored(ops[..|ops| - 1], before))
  }

  class Netlink {
    const syntax: AddrSyntax
    var allocations: Allocations
    var staleError: Option<string>
    var initialized: bool
    var kernel: Ruleset

    /** The state of the runtime between calls. */
    ghost function Resting(): State
      reads this
    {
      State(allocations, staleError, initialized, kernel, Idle)
    }

    /** The kernel holds exactly the projection of the stored allocations. */
    ghost predicate InStep()
      reads this
    {
      NetlinkSteps.InStep(syntax, Resting())
    }

    ghost predicate Valid()
      reads this
    {
      Inv(syntax, Resting())
    }

    constructor (syntax: AddrSyntax, kernel: Ruleset)
      ensures Valid() && this.syntax == syntax && this.kernel == kernel
      ensures allocations == map[] && staleError == None && !initialized
    {
      this.syntax, this.kernel := syntax, kernel;
      allocations, staleError, initialized := map[], None, false;
    }

    method ApplyRules(rules: seq<DnatRule>, fault: Option<Fault>) returns (error: Option<string>)
      modifies this`kernel
      ensures fault.None? ==> error == None && kernel == Compile(rules)
      ensures fault.Some? ==> error == Some(fault.value.message) && kernel == fault.value.kernelAfter
    {
      match fault
      case None =>
        var ruleset := NftBackend.ReplaceRuleset(rules);
        kernel := ruleset;
        error := None;
      case Some(f) =>
        kernel := f.kernelAfter;
        error := Some(f.message);
    }

    /** Insert a candidate, project, and put the table back as it was. */
    method ProjectUpsert(a: Allocation) returns (rules: seq<DnatRule>)
      requires Keyed(allocations)
      modifies this`allocations
      ensures allocations == old(allocations)
      ensures rules == Projection(syntax, allocations[a.id := a])
    {
      var previous := if a.id in allocations then Some(allocations[a.id]) else None;
      allocations := allocations[a.id := a];
      rules := RulesForAllocations(syntax, allocations);
      match previous {
        case Some(p) => allocations := allocations[a.id := p];
        case None => allocations := allocations - {a.id};
      }
    }

    method ProjectDelete(id: string) returns (rules: seq<DnatRule>)
      requires Keyed(allocations)
      modifies this`allocations
      ensures allocations == old(allocations)
      ensures rules == Projection(syntax, allocations - {id})
    {
      var removed := if id in allocations then Some(allocations[id]) else None;
      allocations := allocations - {id};
      rules := RulesForAllocations(syntax, allocations);
      match removed {
        case Some(a) => allocations := allocations[id := a];
        case None =>
      }
    }

    /** mark_fresh or mark_stale, after the backend has answered. */
    method Settle(error: Option<string>) returns (result: Result<(), RuntimeError>)
      modifies this`staleError, this`initialized
      ensures staleError == error
      ensures initialized == (old(initialized) || error.None?)
      ensures result == if error.None? then Ok(()) else Err(RuntimeApplyFailed)
    {
      staleError := error;
      if error.None? {
        initialized := true;
        result := Ok(());
      } else {
        result := Err(RuntimeApplyFailed);
      }
    }

    method Initialize(fault: Option<Fault>) returns (result: Result<(), RuntimeError>)
      requires Valid()
      modifies this
      ensures Valid() && allocations == old(allocations)
      ensures result.Ok? == fault.None? && (result.Ok? ==> InStep() && staleError == None)
      ensures result.Err? ==> staleError == Some(fault.value.message) && kernel == fault.value.kernelAfter
      ensures Resting() == old(Whole(syntax, Resting(), Call.Initialize, fault))
    {
      var rules := RulesForAllocations(syntax, allocations);
      var error := ApplyRules(rules, fault);
      result := Settle(error);
    }

    /** A failed create is forgotten; a successful one is stored and installed with everything else. */
    method Create(a: Allocation, fault: Option<Fault>) returns (result: Result<(), RuntimeError>)
      requires Valid()
      modifies this
      ensures Valid()
      ensures result.Ok? == fault.None?
      ensures result.Ok? ==> allocations == old(allocations)[a.id := a] && InStep() && staleError == None
      ensures result.Err? ==> allocations == old(allocations) && staleError == Some(fault.value.message)
                              && kernel == fault.value.kernelAfter
      ensures Resting() == old(Whole(syntax, Resting(), Call.Create(a), fault))
    {
      var rules := ProjectUpsert(a);
      var error := ApplyRules(rules, fault);
      if error.None? {
        allocations := allocations[a.id := a];
      }
      result := Settle(error);
    }

    /** A failed update is stored all the same, so that the next successful call installs it. */
    method Update(a: Allocation, fault: Option<Fault>) returns (result: Result<(), RuntimeError>)
      requires Valid()
      modifies this
      ensures Valid() && allocations == old(allocations)[a.id := a]
      ensures result.Ok? == fault.None? && (result.Ok? ==> InStep() && staleError == None)
      ensures result.Err? ==> staleError == Some(fault.value.message) && kernel == fault.value.kernelAfter
      ensures Resting() == old(Whole(syntax, Resting(), Call.Update(a), fault))
    {
      var rules := ProjectUpsert(a);
      var error := ApplyRules(rules, fault);
      allocations := allocations[a.id := a];
      result := Settle(error);
    }

    method Delete(id: string, fault: Option<Fault>) returns (result: Result<(), RuntimeError>)
      requires Valid()
      modifies this
      ensures Valid()
      ensures result.Ok? == fault.None?
      ensures result.Ok? ==> allocations == old(allocations) - {id} && InStep() && staleError == None
      ensures result.Err? ==> allocations == old(allocations) && staleError == Some(fault.value.message)
                              && kernel == fault.value.kernelAfter
      ensures Resting() == old(Whole(syntax, Resting(), Call.Delete(id), fault))
    {
      var rules := ProjectDelete(id);
      var error := ApplyRules(rules, fault);
      if error.None? {
        allocations := allocations - {id};
      }
      result := Settle(error);
    }

    method Restore(a: Allocation, fault: Option<Fault>) returns (result: Result<(), RuntimeError>)
      requires Valid()
      modifies this
      ensures Valid() && allocations == old(allocations)[a.id := a]
      ensures result.Ok? == fault.None? && (result.Ok? ==> InStep() && staleError == None)
      ensures result.Err? ==> staleError == Some(fault.value.message) && kernel == fault.value.kernelAfter
      ensures Resting() == old(Whole(syntax, Resting(), Call.Restore(a), fault))
    {
      result := Update(a, fault);
    }

    /**
     A snapshot reads the state at any moment.  Between calls, an allocation is reported active only
     while the kernel serves every stored allocation.
     */
    method Snapshot(id: string) returns (observed: Option<ObservedState>)
      ensures observed == Observed(syntax, allocations, staleError, id)
      ensures observed.Some? <==> id in allocations
      ensures observed.Some? ==> var a := allocations[id];
                && (observed.value.runtimeStatus == Active <==>
                    staleError.None? && exists host, port :: BoundTo(syntax, a, host, port))
                && (observed.value.runtimeStatus == RejectingNoHost <==>
                    !exists host, port :: BoundTo(syntax, a, host, port))
                && (observed.value.runtimeStatus != Active ==>
                    observed.value.effectiveHost == a.host && observed.value.effectiveTargetPort == a.targetPort)
                && (observed.value.runtimeStatus in {Active, RejectingNoHost} ==>
                    observed.value.errorKind == None && observed.value.lastError == None)
                && (observed.value.runtimeStatus !in {Active, RejectingNoHost} ==>
                    && observed.value.runtimeStatus == DegradedApplyFailed
                    && observed.value.errorKind == Some(ApplyFailed)
                    && staleError.Some? && observed.value.lastError == staleError)
      ensures observed.Some? && observed.value.runtimeStatus == Active ==>
                && (forall host, port :: BoundTo(syntax, allocations[id], host, port) ==>
                      && observed.value.effectiveHost == Some(syntax.show(host))
                      && observed.value.effectiveTargetPort == Some(port))
                && (Valid() ==> InStep())
                && (Valid() && OverlapFree(allocations) ==> ServedAsStored(syntax, Resting(), id))
    {
      if id !in allocations {
        return None;
      }
      var a := allocations[id];
      forall host, port ensures BoundTarget(syntax, a) == Some((host, port)) <==> BoundTo(syntax, a, host, port) {
        BoundTargetExact(syntax, a, host, port);
      }
      match BoundTarget(syntax, a)
      case None =>
        observed := Some(ObservedState(a.targetPort, a.host, RejectingNoHost, None, None));
      case Some(target) =>
        assert BoundTo(syntax, a, target.0, target.1);
        if staleError.Some? {
          observed := Some(ObservedState(a.targetPort, a.host, DegradedApplyFailed, Some(ApplyFailed), staleError));
        } else {
          observed := Some(ObservedState(Some(target.1), Some(syntax.show(target.0)), Active, None, None));
          if Valid() && OverlapFree(allocations) { Covered(syntax, Resting(), allocations, id); }
        }
    }

    method Perform(call: Call, fault: Option<Fault>) returns (result: Result<(), RuntimeError>)
      requires Valid()
      modifies this
      ensures Valid() && result.Ok? == fault.None? && (result.Ok? ==> InStep() && staleError == None)
      ensures allocations == Effect(true, call, result.Ok?, old(allocations)) && (result.Err? ==> staleError.Some?)
      ensures Resting() == old(Whole(syntax, Resting(), call, fault))
    {
      match call
      case Initialize => result := this.Initialize(fault);
      case Create(a) => result := this.Create(a, fault);
      case Update(a) => result := this.Update(a, fault);
      case Delete(id) => result := this.Delete(id, fault);
      case Restore(a) => result := this.Restore(a, fault);
    }

    /**
     Any run of operations with any backend failures.  Whatever failed before, a run whose last
     operation succeeded ends with the kernel in step with every allocation the run has stored,
     failed updates included; after a failure the runtime knows that it is stale.
     */
    method Run(ops: seq<(Call, Option<Fault>)>)
      requires Valid()
      modifies this
      ensures Valid()
      ensures allocations == Stored(ops, old(allocations))
      ensures ops != [] ==> if ops[|ops| - 1].1.None? then InStep() && staleError == None else staleError.Some?
    {
      for i := 0 to |ops|
        invariant Valid()
        invariant allocations == Stored(ops[..i], old(allocations))
        invariant i > 0 ==> if ops[i - 1].1.None? then InStep() && staleError == None else staleError.Some?
      {
        assert ops[..i + 1][..i] == ops[..i];
        var result := Perform(ops[i].0, ops[i].1);
      }
      assert ops[..|ops|] == ops;
    }
  }
}
