/** The proxy runtime: a TCP and a UDP listener table under one index of which id uses which. */
module DualRuntime {
  import opened Model

  type Listeners = map<string, ObservedState>

  /** entry_state_for: a listener without a complete target rejects. */
  function EntryStateFor(a: Allocation): ObservedState {
    if a.host.Some? && a.targetPort.Some? then ObservedState(a.targetPort, a.host, Active, None, None)
    else ObservedState(None, None, RejectingNoHost, None, None)
  }

  function AsProtocol(a: Allocation, protocol: Protocol): Allocation {
    a.(protocol := protocol)
  }

  /** One protocol's runtime: binding its port may fail, deleting never does. */
  class ListenerTable {
    const protocol: Protocol
    var entries: Listeners

    constructor (protocol: Protocol)
      ensures this.protocol == protocol && entries == map[]
    {
      this.protocol, entries := protocol, map[];
    }

    /** create and restore; an allocation of another protocol is accepted and ignored. */
    method Bind(a: Allocation, binds: bool, failure: RuntimeError) returns (r: Result<(), RuntimeError>)
      modifies this
      ensures r == if a.protocol == protocol && !binds then Err(failure) else Ok(())
      ensures entries == if a.protocol == protocol && binds then old(entries)[a.id := EntryStateFor(a)]
                         else old(entries)
    {
      if a.protocol != protocol {
        return Ok(());
      }
      if !binds {
        return Err(failure);
      }
      entries := entries[a.id := EntryStateFor(a)];
      r := Ok(());
    }

    method Update(a: Allocation) returns (r: Result<(), RuntimeError>)
      modifies this
      ensures r == if a.id in old(entries) then Ok(()) else Err(RuntimeUpdateFailed)
      ensures entries == if a.id in old(entries) then old(entries)[a.id := EntryStateFor(a)] else old(entries)
    {
      if a.id !in entries {
        return Err(RuntimeUpdateFailed);
      }
      entries := entries[a.id := EntryStateFor(a)];
      r := Ok(());
    }

    method Delete(id: string)
      modifies this
      ensures entries == old(entries) - {id}
    {
      entries := entries - {id};
    }
  }

  /** The whole state of the runtime as a value. */
  datatype Dual = Dual(tcp: Listeners, udp: Listeners, protocols: map<string, Protocol>)

  /** create and restore on values; the two outcomes say whether each port could be bound. */
  function BindOn(d: Dual, a: Allocation, tcpBinds: bool, udpBinds: bool): Dual {
    match a.protocol
    case Tcp =>
      if !tcpBinds then d else d.(tcp := d.tcp[a.id := EntryStateFor(a)], protocols := d.protocols[a.id := Tcp])
    case Udp =>
      if !udpBinds then d else d.(udp := d.udp[a.id := EntryStateFor(a)], protocols := d.protocols[a.id := Udp])
    case Both =>
      if !tcpBinds then d
      else if !udpBinds then d.(tcp := d.tcp - {a.id})
      else Dual(d.tcp[a.id := EntryStateFor(a)], d.udp[a.id := EntryStateFor(a)], d.protocols[a.id := Both])
  }

  predicate Binds(protocol: Protocol, tcpBinds: bool, udpBinds: bool) {
    (Covers(protocol, Tcp) ==> tcpBinds) && (Covers(protocol, Udp) ==> udpBinds)
  }

  function Refresh(entries: Listeners, a: Allocation): Listeners {
    if a.id in entries then entries[a.id := EntryStateFor(a)] else entries
  }

  /** update on values: UDP is tried only when TCP had the listener. */
  function UpdateOn(d: Dual, a: Allocation): Dual {
    match a.protocol
    case Tcp => d.(tcp := Refresh(d.tcp, a))
    case Udp => d.(udp := Refresh(d.udp, a))
    case Both =>
      if a.id !in d.tcp then d else d.(tcp := Refresh(d.tcp, a), udp := Refresh(d.udp, a))
  }

  function DeleteOn(d: Dual, id: string): Dual {
    Dual(d.tcp - {id}, d.udp - {id}, d.protocols - {id})
  }

  function DegradedFrom(state: ObservedState, message: string): ObservedState {
    state.(runtimeStatus := DegradedApplyFailed, errorKind := Some(ApplyFailed), lastError := Some(message))
  }

  function Aggregate(tcp: Option<ObservedState>, udp: Option<ObservedState>): Option<ObservedState> {
    match (tcp, udp)
    case (Some(t), Some(u)) => if t == u then Some(t) else Some(DegradedFrom(t, "divergent tcp/udp runtime state"))
    case (Some(t), None) => Some(DegradedFrom(t, "missing udp runtime state"))
    case (None, Some(u)) => Some(DegradedFrom(u, "missing tcp runtime state"))
    case (None, None) => None
  }

  function Lookup(entries: Listeners, id: string): Option<ObservedState> {
    if id in entries then Some(entries[id]) else None
  }

  function SnapshotOf(d: Dual, id: string): Option<ObservedState> {
    if id !in d.protocols then None
    else match d.protocols[id]
      case Tcp => Lookup(d.tcp, id)
      case Udp => Lookup(d.udp, id)
      case Both => Aggregate(Lookup(d.tcp, id), Lookup(d.udp, id))
  }

  class RealRuntime {
    const tcp: ListenerTable
    const udp: ListenerTable
    var protocols: map<string, Protocol>

    ghost predicate Valid() {
      tcp != udp && tcp.protocol == Tcp && udp.protocol == Udp
    }

    ghost function State(): Dual
      reads this, tcp, udp
    {
      Dual(tcp.entries, udp.entries, protocols)
    }

    constructor ()
      ensures Valid() && fresh(tcp) && fresh(udp) && State() == Dual(map[], map[], map[])
    {
      tcp := new ListenerTable(Tcp);
      udp := new ListenerTable(Udp);
      protocols := map[];
    }

    /** create (and restore, with the other failure): TCP first, and taken back when UDP fails. */
    method Create(a: Allocation, tcpBinds: bool, udpBinds: bool, failure: RuntimeError)
      returns (r: Result<(), RuntimeError>)
      requires Valid()
      modifies this, tcp, udp
      ensures Valid() && State() == BindOn(old(State()), a, tcpBinds, udpBinds)
      ensures r == if Binds(a.protocol, tcpBinds, udpBinds) then Ok(()) else Err(failure)
    {
      match a.protocol
      case Tcp =>
        r := tcp.Bind(a, tcpBinds, failure);
        if r.Ok? { protocols := protocols[a.id := Tcp]; }
      case Udp =>
        r := udp.Bind(a, udpBinds, failure);
        if r.Ok? { protocols := protocols[a.id := Udp]; }
      case Both =>
        r := tcp.Bind(AsProtocol(a, Tcp), tcpBinds, failure);
        if r.Err? {
          return;
        }
        r := udp.Bind(AsProtocol(a, Udp), udpBinds, failure);
        if r.Err? {
          tcp.Delete(a.id);
          return;
        }
        protocols := protocols[a.id := Both];
    }

    method Update(a: Allocation) returns (r: Result<(), RuntimeError>)
      requires Valid()
      modifies tcp, udp
      ensures Valid() && State() == UpdateOn(old(State()), a)
      ensures r.Ok? <==> && (Covers(a.protocol, Tcp) ==> a.id in old(tcp.entries))
                         && (Covers(a.protocol, Udp) ==> a.id in old(udp.entries))
    {
      match a.protocol
      case Tcp => r := tcp.Update(a);
      case Udp => r := udp.Update(a);
      case Both =>
        r := tcp.Update(AsProtocol(a, Tcp));
        if r.Ok? {
          r := udp.Update(AsProtocol(a, Udp));
        }
    }

    method Delete(id: string) returns (r: Result<(), RuntimeError>)
      requires Valid()
      modifies this, tcp, udp
      ensures Valid() && State() == DeleteOn(old(State()), id) && r == Ok(())
    {
      protocols := protocols - {id};
      tcp.Delete(id);
      udp.Delete(id);
      r := Ok(());
    }

    method Snapshot(id: string) returns (r: Option<ObservedState>)
      requires Valid()
      ensures r == SnapshotOf(State(), id)
    {
      if id !in protocols {
        return None;
      }
      match protocols[id]
      case Tcp => r := Lookup(tcp.entries, id);
      case Udp => r := Lookup(udp.entries, id);
      case Both => r := Aggregate(Lookup(tcp.entries, id), Lookup(udp.entries, id));
    }
  }

  // ---------------------------------------------------------------- properties

  /** The index records exactly which tables hold each id. */
  ghost predicate IndexAgrees(d: Dual) {
    forall id ::
      (id in d.tcp <==> id in d.protocols && Covers(d.protocols[id], Tcp)) &&
      (id in d.udp <==> id in d.protocols && Covers(d.protocols[id], Udp))
  }

  /** The tables this bind would not fill do not already hold the id, nor would a rollback remove it. */
  predicate SafeToBind(d: Dual, a: Allocation) {
    match a.protocol
    case Tcp => a.id !in d.udp
    case Udp => a.id !in d.tcp
    case Both => a.id !in d.tcp
  }

  /** Binding keeps the index right under every outcome exactly when it is safe to bind. */
  lemma BindKeepsIndexIff(d: Dual, a: Allocation)
    requires IndexAgrees(d)
    ensures (forall tcpBinds, udpBinds :: IndexAgrees(BindOn(d, a, tcpBinds, udpBinds))) <==> SafeToBind(d, a)
  {
    if SafeToBind(d, a) {
      forall tcpBinds, udpBinds ensures IndexAgrees(BindOn(d, a, tcpBinds, udpBinds)) {}
    } else {
      assert !IndexAgrees(BindOn(d, a, true, a.protocol == Udp));
    }
  }

  /** For an id in use nowhere, binding is all or nothing over both tables and the index. */
  lemma BindAllOrNothing(d: Dual, a: Allocation, tcpBinds: bool, udpBinds: bool)
    requires a.id !in d.tcp && a.id !in d.udp && a.id !in d.protocols
    ensures var d' := BindOn(d, a, tcpBinds, udpBinds);
            if Binds(a.protocol, tcpBinds, udpBinds) then
              && d'.protocols == d.protocols[a.id := a.protocol]
              && d'.tcp == (if Covers(a.protocol, Tcp) then d.tcp[a.id := EntryStateFor(a)] else d.tcp)
              && d'.udp == (if Covers(a.protocol, Udp) then d.udp[a.id := EntryStateFor(a)] else d.udp)
            else d' == d
  {
    assert d.tcp - {a.id} == d.tcp;
  }

  datatype Op =
    | BindOp(allocation: Allocation, tcpBinds: bool, udpBinds: bool)
    | UpdateOp(allocation: Allocation)
    | DeleteOp(id: string)

  function Apply(d: Dual, op: Op): Dual {
    match op
    case BindOp(a, tcpBinds, udpBinds) => BindOn(d, a, tcpBinds, udpBinds)
    case UpdateOp(a) => UpdateOn(d, a)
    case DeleteOp(id) => DeleteOn(d, id)
  }

  function RunOps(d: Dual, ops: seq<Op>): Dual
    decreases |ops|
  {
    if ops == [] then d else RunOps(Apply(d, ops[0]), ops[1..])
  }

  predicate AllSafe(d: Dual, ops: seq<Op>)
    decreases |ops|
  {
    ops == [] || ((ops[0].BindOp? ==> SafeToBind(d, ops[0].allocation)) && AllSafe(Apply(d, ops[0]), ops[1..]))
  }

  /** Over every run of safe binds, updates and deletes, with any bind failures, the index stays right. */
  lemma {:induction false} RunKeepsIndex(d: Dual, ops: seq<Op>)
    requires IndexAgrees(d) && AllSafe(d, ops)
    ensures IndexAgrees(RunOps(d, ops))
    decreases |ops|
  {
    if ops != [] {
      var op := ops[0];
      if op.BindOp? {
        BindKeepsIndexIff(d, op.allocation);
      } else {
        assert IndexAgrees(Apply(d, op));
      }
      RunKeepsIndex(Apply(d, op), ops[1..]);
    }
  }

  /** What is to be reported of an allocation that is listened for: its own target, or that it has none. */
  predicate Reported(observed: ObservedState, a: Allocation) {
    && observed.errorKind == None && observed.lastError == None
    && if a.host.Some? && a.targetPort.Some? then
         && observed.runtimeStatus == Active
         && observed.effectiveHost == a.host && observed.effectiveTargetPort == a.targetPort
       else
         && observed.runtimeStatus == RejectingNoHost
         && observed.effectiveHost == None && observed.effectiveTargetPort == None
  }

  /** A fresh id that was bound is reported as the allocation says, for each of the three protocols. */
  lemma BoundIsReported(d: Dual, a: Allocation, tcpBinds: bool, udpBinds: bool)
    requires a.id !in d.tcp && a.id !in d.udp && a.id !in d.protocols && Binds(a.protocol, tcpBinds, udpBinds)
    ensures var observed := SnapshotOf(BindOn(d, a, tcpBinds, udpBinds), a.id);
            observed.Some? && Reported(observed.value, a)
  {
    BindAllOrNothing(d, a, tcpBinds, udpBinds);
  }

  /** With the two sides of Both apart, the report is degraded, says how, and shows the side that is there. */
  lemma ApartIsDegraded(d: Dual, id: string)
    requires id in d.protocols && d.protocols[id] == Both && Lookup(d.tcp, id) != Lookup(d.udp, id)
    ensures SnapshotOf(d, id).Some?
    ensures var observed := SnapshotOf(d, id).value;
            && observed.runtimeStatus == DegradedApplyFailed && observed.errorKind == Some(ApplyFailed)
            && observed.lastError == Some(if id !in d.tcp then "missing tcp runtime state"
                                          else if id !in d.udp then "missing udp runtime state"
                                          else "divergent tcp/udp runtime state")
            && var shown := if id in d.tcp then d.tcp[id] else d.udp[id];
            observed.effectiveHost == shown.effectiveHost && observed.effectiveTargetPort == shown.effectiveTargetPort
  {
  }

  /** An active status is never a guess: each protocol the id uses has a listener in that very state. */
  lemma ActiveMeansBoth(d: Dual, id: string)
    requires SnapshotOf(d, id).Some? && SnapshotOf(d, id).value.runtimeStatus == Active
    ensures id in d.protocols
    ensures Covers(d.protocols[id], Tcp) ==> id in d.tcp && d.tcp[id] == SnapshotOf(d, id).value
    ensures Covers(d.protocols[id], Udp) ==> id in d.udp && d.udp[id] == SnapshotOf(d, id).value
  {
  }
}
