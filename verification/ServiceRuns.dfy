/** What holds after any run of service operations, whatever fails along the way. */
module ServiceRuns {
  import opened Model
  import opened Storage
  import opened ServiceFacts
  import opened AllocationService

  datatype Op =
    | Create(protocol: Protocol, createPort: Option<Port>, now: int, createFaults: CreateFaults)
    | Put(id: string, host: string, targetPort: Port, now: int, faults: Faults)
    | Update(id: string, newPort: Option<Port>, newHost: Option<string>, now: int, faults: Faults)
    | Unbind(id: string, now: int, faults: Faults)
    | Delete(id: string, faults: Faults)
    | RestoreAll(initFault: Option<RuntimeError>, listFails: bool, restoreFault: string -> Option<RuntimeError>)
    | SetFailpoints(failpoints: Failpoints)

  /** One operation of a run: how it ended, the id a create gave the runtime, and the tables around it. */
  datatype Event = Event(op: Op, ok: bool, born: Option<string>, before: Tables, after: Tables)

  /**
   The ids whose last mutation ended in an error, given those before: a failed create counts
   against the id it generated when it could not be undone, and a complete restore clears every row.
   */
  function LastFailed(e: Event, before: set<string>): set<string> {
    match e.op
    case Create(_, _, _, faults) => CreateFailed(before, e.ok, e.born, faults.rollback)
    case RestoreAll(_, _, _) => if e.ok then before - e.after.allocations.Keys else before
    case SetFailpoints(_) => before
    case _ => if e.ok then before - {e.op.id} else before + {e.op.id}
  }

  function FailedAfter(trace: seq<Event>, before: set<string>): set<string> {
    if trace == [] then before
    else LastFailed(trace[|trace| - 1], FailedAfter(trace[..|trace| - 1], before))
  }

  /** The tables a run leaves. */
  function TablesAfter(start: Tables, trace: seq<Event>): Tables {
    if trace == [] then start else trace[|trace| - 1].after
  }

  /** The ids whose binding an operation may delete. */
  function Deleted(op: Op): set<string> {
    if op.Unbind? || op.Delete? then {op.id} else {}
  }

  /** Every binding keeps its creation time, unless the operation takes away the binding of its own id. */
  ghost predicate KeepsCreation(e: Event) {
    CreationKept(e.before, e.after, Deleted(e.op))
  }

  /** Only a create generates an id, one that no row had, and a successful one stores it. */
  ghost predicate BornInto(e: Event) {
    && (e.born.Some? ==> e.op.Create? && e.born.value !in e.before.allocations && e.born.value !in e.before.bindings)
    && (e.op.Create? && e.ok ==> e.born.Some? && e.born.value in e.after.allocations)
  }

  ghost predicate Happened(e: Event) {
    KeepsCreation(e) && BornInto(e)
  }

  /** The trace of a run of these operations with these results: each starts from what the one before it left. */
  ghost predicate Traces(start: Tables, ops: seq<Op>, oks: seq<bool>, trace: seq<Event>)
    decreases |trace|
  {
    && |trace| == |ops| == |oks|
    && (trace == [] ||
        var n, e := |trace| - 1, trace[|trace| - 1];
        && e.op == ops[n] && e.ok == oks[n] && Happened(e) && e.before == TablesAfter(start, trace[..n])
        && Traces(start, ops[..n], oks[..n], trace[..n]))
  }

  /** The store is sound for the range of ports this service hands out. */
  ghost predicate SoundFor(service: Service)
    reads service.repo
  {
    Sound(service.repo.tables, service.start as int, service.end as int)
  }

  lemma CreatedKeeps(t: Tables, t': Tables, runtime: map<string, Allocation>, runtime': map<string, Allocation>,
                     lo: int, hi: int, a: Allocation)
    requires Created(t, t', runtime, runtime', a)
    ensures CreationKept(t, t', {}) && TidyKept(t, t')
    ensures Sound(t, lo, hi) && lo <= a.port as int <= hi && !Taken(t, a.protocol, a.port as int) ==> Sound(t', lo, hi)
  {
    forall id | id in t.bindings
      ensures id in t'.bindings && t'.bindings[id].createdAtMs == t.bindings[id].createdAtMs
    {
      assert id != a.id && Untouched(t, t', runtime, runtime', id);
      assert BindingOf(t, id) == BindingOf(t', id);
    }
    OneTidied(t, t', runtime, runtime', a.id);
    if Sound(t, lo, hi) && lo <= a.port as int <= hi && !Taken(t, a.protocol, a.port as int) {
      InsertSound(t, t', lo, hi, a);
    }
  }

  /** From bind to unbind: while no operation takes a binding away, its creation time stays the same. */
  lemma {:induction false} CreationAlong(start: Tables, ops: seq<Op>, oks: seq<bool>, trace: seq<Event>, i: nat,
                                         id: string)
    requires Traces(start, ops, oks, trace) && i <= |trace| && id in TablesAfter(start, trace[..i]).bindings
    requires forall k: nat :: i <= k < |trace| && id in Deleted(trace[k].op) ==> id in trace[k].after.bindings
    ensures id in TablesAfter(start, trace).bindings
    ensures TablesAfter(start, trace).bindings[id].createdAtMs ==
            TablesAfter(start, trace[..i]).bindings[id].createdAtMs
    decreases |trace|
  {
    if i == |trace| {
      assert trace[..i] == trace;
    } else {
      var n := |trace| - 1;
      assert trace[..n][..i] == trace[..i];
      CreationAlong(start, ops[..n], oks[..n], trace[..n], i, id);
      assert KeepsCreation(trace[n]);
    }
  }

  method PerformCreate(service: Service, op: Op) returns (ghost e: Event, ok: bool)
    requires service.Valid() && op.Create?
    modifies service, service.repo, service.runtime
    ensures service.Valid() && e == Event(op, ok, e.born, old(service.repo.tables), service.repo.tables) && Happened(e)
    ensures old(SoundFor(service)) ==> SoundFor(service)
    ensures TidyKept(old(service.repo.tables), service.repo.tables)
    ensures service.suspect <= LastFailed(e, old(service.suspect))
  {
    ghost var t, runtime := service.repo.tables, service.runtime.allocations;
    ghost var born: Option<string>;
    var r;
    r, born := service.CreateAllocation(op.protocol, op.createPort, op.now, op.createFaults);
    ok := r.Ok?;
    e := Event(op, ok, born, t, service.repo.tables);
    if ok {
      CreatedKeeps(t, service.repo.tables, runtime, service.runtime.allocations,
                   service.start as int, service.end as int, r.value);
    }
  }

  method PerformBind(service: Service, op: Op) returns (ok: bool)
    requires service.Valid() && (op.Put? || op.Update?)
    modifies service, service.repo, service.runtime
    ensures service.Valid() && CreationKept(old(service.repo.tables), service.repo.tables, {})
    ensures PortsKept(old(service.repo.tables), service.repo.tables)
    ensures TidyKept(old(service.repo.tables), service.repo.tables)
    ensures service.suspect <= if ok then old(service.suspect) - {op.id} else old(service.suspect) + {op.id}
  {
    if op.Put? {
      var r := service.PutBinding(op.id, op.host, op.targetPort, op.now, op.faults);
      ok := r.Ok?;
    } else {
      var r := service.UpdateAllocation(op.id, op.newPort, op.newHost, op.now, op.faults);
      ok := r.Ok?;
    }
  }

  method PerformRemove(service: Service, op: Op) returns (ok: bool)
    requires service.Valid() && (op.Unbind? || op.Delete?)
    modifies service, service.repo, service.runtime
    ensures service.Valid() && CreationKept(old(service.repo.tables), service.repo.tables, {op.id})
    ensures PortsKept(old(service.repo.tables), service.repo.tables)
    ensures TidyKept(old(service.repo.tables), service.repo.tables)
    ensures service.suspect <= if ok then old(service.suspect) - {op.id} else old(service.suspect) + {op.id}
  {
    if op.Unbind? {
      var r := service.DeleteBinding(op.id, op.now, op.faults);
      ok := r.Ok?;
    } else {
      var r := service.DeleteAllocation(op.id, op.faults);
      ok := r.Ok?;
    }
  }

  method PerformWrite(service: Service, op: Op) returns (ok: bool)
    requires service.Valid() && (op.Put? || op.Update? || op.Unbind? || op.Delete?)
    modifies service, service.repo, service.runtime
    ensures service.Valid() && CreationKept(old(service.repo.tables), service.repo.tables, Deleted(op))
    ensures old(SoundFor(service)) ==> SoundFor(service)
    ensures TidyKept(old(service.repo.tables), service.repo.tables)
    ensures service.suspect <= if ok then old(service.suspect) - {op.id} else old(service.suspect) + {op.id}
  {
    ghost var t := service.repo.tables;
    if op.Put? || op.Update? {
      ok := PerformBind(service, op);
    } else {
      ok := PerformRemove(service, op);
    }
    if Sound(t, service.start as int, service.end as int) {
      PortsKeptSound(t, service.repo.tables, service.start as int, service.end as int);
    }
  }

  method Perform(service: Service, op: Op) returns (ghost e: Event, ok: bool)
    requires service.Valid()
    modifies service, service.repo, service.runtime
    ensures service.Valid() && e == Event(op, ok, e.born, old(service.repo.tables), service.repo.tables) && Happened(e)
    ensures old(SoundFor(service)) ==> SoundFor(service)
    ensures TidyKept(old(service.repo.tables), service.repo.tables)
    ensures service.suspect <= LastFailed(e, old(service.suspect))
  {
    ghost var t := service.repo.tables;
    match op {
      case Create(_, _, _, _) =>
        e, ok := PerformCreate(service, op);
        return;
      case RestoreAll(initFault, listFails, restoreFault) =>
        var r := service.RestoreAll(initFault, listFails, restoreFault);
        ok := r.Ok?;
      case SetFailpoints(failpoints) =>
        service.failpoints := failpoints;
        ok := true;
      case _ =>
        ok := PerformWrite(service, op);
    }
    e := Event(op, ok, None, t, service.repo.tables);
  }

  lemma TidyOn(t: Tables, t': Tables, t'': Tables)
    requires TidyKept(t, t') && TidyKept(t', t'')
    ensures TidyKept(t, t'')
  {
  }

  /** One more event makes a longer trace. */
  lemma {:induction false} Append(start: Tables, ops: seq<Op>, oks: seq<bool>, trace: seq<Event>, e: Event)
    requires Traces(start, ops, oks, trace) && Happened(e) && e.before == TablesAfter(start, trace)
    ensures Traces(start, ops + [e.op], oks + [e.ok], trace + [e])
  {
    assert (trace + [e])[..|trace|] == trace && (ops + [e.op])[..|ops|] == ops && (oks + [e.ok])[..|oks|] == oks;
  }

  lemma {:induction false} FailedNext(trace: seq<Event>, e: Event, before: set<string>)
    ensures FailedAfter(trace + [e], before) == LastFailed(e, FailedAfter(trace, before))
  {
    assert (trace + [e])[..|trace|] == trace;
  }

  /** What a run has kept so far, from these tables and these ids out of step. */
  ghost predicate Kept(service: Service, start: Tables, suspect: set<string>, sound: bool, ops: seq<Op>, oks: seq<bool>,
                       trace: seq<Event>)
    reads service, service.repo, service.runtime
  {
    && service.Valid() && Traces(start, ops, oks, trace)
    && service.repo.tables == TablesAfter(start, trace)
    && service.suspect <= FailedAfter(trace, suspect)
    && (sound ==> SoundFor(service))
    && TidyKept(start, service.repo.tables)
  }

  method Advance(service: Service, op: Op, ghost start: Tables, ghost suspect: set<string>, ghost sound: bool,
                 ghost ops: seq<Op>, ghost oks: seq<bool>, ghost trace: seq<Event>)
    returns (ok: bool, ghost trace': seq<Event>)
    requires Kept(service, start, suspect, sound, ops, oks, trace)
    modifies service, service.repo, service.runtime
    ensures Kept(service, start, suspect, sound, ops + [op], oks + [ok], trace')
  {
    ghost var t := service.repo.tables;
    ghost var e: Event;
    e, ok := Perform(service, op);
    trace' := trace + [e];
    Append(start, ops, oks, trace, e);
    FailedNext(trace, e, suspect);
    TidyOn(start, t, service.repo.tables);
  }

  /**
   After any run, whatever failed along the way: every id whose last mutation did not end in an error
   is in the runtime exactly when it is in the store, and then holds exactly the hydrated row; a sound
   store stays sound; rows that have and repeat their bindings go on doing so; and from one operation
   to the next every binding keeps its creation time or was taken away by an operation on its own id.
   */
  method Run(service: Service, ops: seq<Op>) returns (oks: seq<bool>, ghost trace: seq<Event>)
    requires service.Valid()
    modifies service, service.repo, service.runtime
    ensures service.Valid() && Traces(old(service.repo.tables), ops, oks, trace)
    ensures service.repo.tables == TablesAfter(old(service.repo.tables), trace)
    ensures forall id :: id !in FailedAfter(trace, old(service.suspect)) ==>
              Synced(service.repo.tables, service.runtime.allocations, id)
    ensures old(SoundFor(service)) ==> SoundFor(service)
    ensures TidyKept(old(service.repo.tables), service.repo.tables)
  {
    oks, trace := [], [];
    ghost var start, suspect, sound := service.repo.tables, service.suspect, SoundFor(service);
    for i := 0 to |ops|
      invariant Kept(service, start, suspect, sound, ops[..i], oks, trace)
    {
      var ok;
      ok, trace := Advance(service, ops[i], start, suspect, sound, ops[..i], oks, trace);
      oks := oks + [ok];
      assert ops[..i + 1] == ops[..i] + [ops[i]];
    }
    assert ops[..|ops|] == ops;
  }
}
