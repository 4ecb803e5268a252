/** The runtime contract the service is written against. */
module Runtimes {
  import opened Model

  /** The calls of the runtime facade that change what it holds. */
  datatype Call =
    | Initialize
    | Create(allocation: Allocation)
    | Update(allocation: Allocation)
    | Delete(id: string)
    | Restore(allocation: Allocation)

  /**
   What the runtime holds after a call.  A failed create or delete changes nothing.  A failed update
   or restore changes nothing in the in-memory runtime, while the netlink runtime remembers the
   allocation so that its next successful call installs it.
   */
  function Effect(keepsFailed: bool, call: Call, ok: bool, before: map<string, Allocation>): map<string, Allocation> {
    match call
    case Initialize => before
    case Create(a) => if ok then before[a.id := a] else before
    case Update(a) => if ok || keepsFailed then before[a.id := a] else before
    case Delete(id) => if ok then before - {id} else before
    case Restore(a) => if ok || keepsFailed then before[a.id := a] else before
  }

  /** What a runtime that started empty holds after these calls with these outcomes. */
  function Replay(keepsFailed: bool, calls: seq<(Call, bool)>): map<string, Allocation> {
    if calls == [] then map[]
    else
      var last := calls[|calls| - 1];
      Effect(keepsFailed, last.0, last.1, Replay(keepsFailed, calls[..|calls| - 1]))
  }

  lemma ReplayNext(keepsFailed: bool, calls: seq<(Call, bool)>, call: Call, ok: bool)
    ensures Replay(keepsFailed, calls + [(call, ok)]) == Effect(keepsFailed, call, ok, Replay(keepsFailed, calls))
  {
    assert (calls + [(call, ok)])[..|calls|] == calls;
  }

  /** The call is about nothing held, or about an allocation of the protocol that is held. */
  predicate InKind(held: map<string, Allocation>, call: Call) {
    call.Create? || call.Update? || call.Restore? ==>
      call.allocation.id in held ==> held[call.allocation.id].protocol == call.allocation.protocol
  }

  /** No call has tried to change the protocol of an allocation that was held. */
  predicate OrderlyCalls(keepsFailed: bool, calls: seq<(Call, bool)>) {
    calls == [] ||
    var front := calls[..|calls| - 1];
    InKind(Replay(keepsFailed, front), calls[|calls| - 1].0) && OrderlyCalls(keepsFailed, front)
  }

  lemma OrderlyNext(keepsFailed: bool, calls: seq<(Call, bool)>, call: Call, ok: bool)
    requires OrderlyCalls(keepsFailed, calls) && InKind(Replay(keepsFailed, calls), call)
    ensures OrderlyCalls(keepsFailed, calls + [(call, ok)])
  {
    assert (calls + [(call, ok)])[..|calls|] == calls;
  }

  function Answer(fault: Option<RuntimeError>): Result<(), RuntimeError> {
    if fault.Some? then Err(fault.value) else Ok(())
  }

  class Runtime {
    const keepsFailed: bool
    var allocations: map<string, Allocation>
    var calls: seq<(Call, bool)>

    /** What is held is what the calls so far have left. */
    ghost predicate Valid()
      reads this
    {
      allocations == Replay(keepsFailed, calls)
    }

    ghost predicate Orderly()
      reads this
    {
      OrderlyCalls(keepsFailed, calls)
    }

    constructor (keepsFailed: bool)
      ensures Valid() && Orderly() && this.keepsFailed == keepsFailed && allocations == map[] && calls == []
    {
      this.keepsFailed, allocations, calls := keepsFailed, map[], [];
    }

    /** Note the call; whoever calls this has applied its effect. */
    method Log(call: Call, fault: Option<RuntimeError>, ghost before: map<string, Allocation>)
      returns (r: Result<(), RuntimeError>)
      requires before == Replay(keepsFailed, calls)
      requires allocations == Effect(keepsFailed, call, fault.None?, before)
      modifies this`calls
      ensures Valid() && r == Answer(fault) && calls == old(calls) + [(call, fault.None?)]
      ensures old(Orderly()) && InKind(before, call) ==> Orderly()
    {
      ReplayNext(keepsFailed, calls, call, fault.None?);
      if Orderly() && InKind(before, call) { OrderlyNext(keepsFailed, calls, call, fault.None?); }
      calls := calls + [(call, fault.None?)];
      r := Answer(fault);
    }

    method Initialize(fault: Option<RuntimeError>) returns (r: Result<(), RuntimeError>)
      requires Valid()
      modifies this
      ensures Valid() && r == Answer(fault) && allocations == old(allocations)
      ensures calls == old(calls) + [(Call.Initialize, fault.None?)]
      ensures old(Orderly()) ==> Orderly()
    {
      r := Log(Call.Initialize, fault, allocations);
    }

    method Create(a: Allocation, fault: Option<RuntimeError>) returns (r: Result<(), RuntimeError>)
      requires Valid()
      modifies this
      ensures Valid() && r == Answer(fault) && calls == old(calls) + [(Call.Create(a), fault.None?)]
      ensures allocations == if fault.Some? then old(allocations) else old(allocations)[a.id := a]
      ensures old(Orderly() && InKind(allocations, Call.Create(a))) ==> Orderly()
    {
      ghost var before := allocations;
      if fault.None? { allocations := allocations[a.id := a]; }
      r := Log(Call.Create(a), fault, before);
    }

    method Update(a: Allocation, fault: Option<RuntimeError>) returns (r: Result<(), RuntimeError>)
      requires Valid()
      modifies this
      ensures Valid() && r == Answer(fault) && calls == old(calls) + [(Call.Update(a), fault.None?)]
      ensures allocations == if fault.None? || keepsFailed then old(allocations)[a.id := a] else old(allocations)
      ensures old(Orderly() && InKind(allocations, Call.Update(a))) ==> Orderly()
    {
      ghost var before := allocations;
      if fault.None? || keepsFailed { allocations := allocations[a.id := a]; }
      r := Log(Call.Update(a), fault, before);
    }

    method Restore(a: Allocation, fault: Option<RuntimeError>) returns (r: Result<(), RuntimeError>)
      requires Valid()
      modifies this
      ensures Valid() && r == Answer(fault) && calls == old(calls) + [(Call.Restore(a), fault.None?)]
      ensures allocations == if fault.None? || keepsFailed then old(allocations)[a.id := a] else old(allocations)
      ensures old(Orderly() && InKind(allocations, Call.Restore(a))) ==> Orderly()
    {
      ghost var before := allocations;
      if fault.None? || keepsFailed { allocations := allocations[a.id := a]; }
      r := Log(Call.Restore(a), fault, before);
    }

    method Delete(id: string, fault: Option<RuntimeError>) returns (r: Result<(), RuntimeError>)
      requires Valid()
      modifies this
      ensures Valid() && r == Answer(fault) && calls == old(calls) + [(Call.Delete(id), fault.None?)]
      ensures allocations == if fault.Some? then old(allocations) else old(allocations) - {id}
      ensures old(Orderly()) ==> Orderly()
    {
      ghost var before := allocations;
      if fault.None? { allocations := allocations - {id}; }
      r := Log(Call.Delete(id), fault, before);
    }
  }
}
