/** The service over the proxy runtime: which listeners are there after any run, whatever fails. */
module ProxyRuns {
  import opened Model
  import opened Runtimes
  import opened DualRuntime
  import opened Storage
  import ServiceFacts
  import ServiceRuns
  import AllocationService

  /** Whether the two ports of one call can be bound. */
  datatype Ports = Ports(tcp: bool, udp: bool)

  /** Whether the proxy answers a call with success. */
  predicate Accepts(d: Dual, call: Call, ports: Ports) {
    match call
    case Initialize => true
    case Delete(_) => true
    case Create(a) => Binds(a.protocol, ports.tcp, ports.udp)
    case Restore(a) => Binds(a.protocol, ports.tcp, ports.udp)
    case Update(a) => (Covers(a.protocol, Tcp) ==> a.id in d.tcp) && (Covers(a.protocol, Udp) ==> a.id in d.udp)
  }

  /** What a call leaves of the two tables and the index. */
  function Called(d: Dual, call: Call, ports: Ports): Dual {
    match call
    case Initialize => d
    case Delete(id) => DeleteOn(d, id)
    case Create(a) => BindOn(d, a, ports.tcp, ports.udp)
    case Restore(a) => BindOn(d, a, ports.tcp, ports.udp)
    case Update(a) => UpdateOn(d, a)
  }

  function DualAfter(calls: seq<(Call, bool)>, ports: nat -> Ports): Dual {
    if calls == [] then Dual(map[], map[], map[])
    else
      var n := |calls| - 1;
      Called(DualAfter(calls[..n], ports), calls[n].0, ports(n))
  }

  /** A port that has a listener cannot be bound again. */
  predicate Exclusive(d: Dual, call: Call, ports: Ports) {
    call.Create? || call.Restore? ==>
      var a := call.allocation;
      && (Covers(a.protocol, Tcp) && a.id in d.tcp ==> !ports.tcp)
      && (Covers(a.protocol, Udp) && a.id in d.udp ==> !ports.udp)
  }

  /** What the proxy answers to the call at position k, after the calls before it. */
  predicate AnswerAt(calls: seq<(Call, bool)>, ports: nat -> Ports, k: nat)
    requires k < |calls|
  {
    Accepts(DualAfter(calls[..k], ports), calls[k].0, ports(k))
  }

  predicate ExclusiveAt(calls: seq<(Call, bool)>, ports: nat -> Ports, k: nat)
    requires k < |calls|
  {
    Exclusive(DualAfter(calls[..k], ports), calls[k].0, ports(k))
  }

  /** Throughout the calls, no port with a listener is bound again. */
  predicate PortsExclusive(calls: seq<(Call, bool)>, ports: nat -> Ports) {
    forall k: nat :: k < |calls| ==> ExclusiveAt(calls, ports, k)
  }

  /** Whoever made the calls was told these answers. */
  predicate Told(calls: seq<(Call, bool)>, answers: seq<bool>) {
    |answers| == |calls| && forall k: nat :: k < |calls| ==> calls[k].1 == answers[k]
  }

  /** The answers of the proxy. */
  predicate Answers(calls: seq<(Call, bool)>, ports: nat -> Ports, answers: seq<bool>) {
    |answers| == |calls| && forall k: nat :: k < |calls| ==> answers[k] == AnswerAt(calls, ports, k)
  }

  /** Exactly the listeners of this allocation: one per protocol it covers, each in its state. */
  predicate Listening(d: Dual, id: string, a: Allocation) {
    && Lookup(d.tcp, id) == (if Covers(a.protocol, Tcp) then Some(EntryStateFor(a)) else None)
    && Lookup(d.udp, id) == (if Covers(a.protocol, Udp) then Some(EntryStateFor(a)) else None)
    && id in d.protocols && d.protocols[id] == a.protocol
  }

  /** An allocation with exactly its listeners is reported as it is. */
  lemma ListeningIsReported(d: Dual, id: string, a: Allocation)
    requires Listening(d, id, a)
    ensures SnapshotOf(d, id).Some? && Reported(SnapshotOf(d, id).value, a)
  {
  }

  predicate Silent(d: Dual, id: string) {
    id !in d.tcp && id !in d.udp && id !in d.protocols
  }

  predicate Right(d: Dual, held: map<string, Allocation>, id: string) {
    if id in held then Listening(d, id, held[id]) else Silent(d, id)
  }

  /** The listeners are those of the allocations held, and no others. */
  ghost predicate Holds(d: Dual, held: map<string, Allocation>) {
    forall id :: Right(d, held, id)
  }

  /** Binding for a held allocation of that protocol fails at the first port, before anything changes. */
  lemma BindHeld(d: Dual, held: map<string, Allocation>, call: Call, ports: Ports)
    requires call.Create? || call.Restore?
    requires Right(d, held, call.allocation.id) && call.allocation.id in held
    requires InKind(held, call) && Exclusive(d, call, ports)
    ensures Called(d, call, ports) == d && !Accepts(d, call, ports)
  {
    var a := call.allocation;
    assert Listening(d, a.id, held[a.id]);
  }

  lemma BindNew(d: Dual, held: map<string, Allocation>, a: Allocation, ports: Ports, id: string)
    requires Right(d, held, id) && Silent(d, a.id)
    ensures var d' := BindOn(d, a, ports.tcp, ports.udp);
            Right(d', if Binds(a.protocol, ports.tcp, ports.udp) then held[a.id := a] else held, id)
  {
    BindAllOrNothing(d, a, ports.tcp, ports.udp);
  }

  /** With the held protocol known, an update finds all of its listeners or none: there is no half of it. */
  lemma UpdateHeld(d: Dual, held: map<string, Allocation>, a: Allocation, id: string)
    requires Right(d, held, a.id) && Right(d, held, id) && InKind(held, Update(a))
    ensures Accepts(d, Update(a), Ports(false, false)) <==> a.id in held
    ensures Right(UpdateOn(d, a), if a.id in held then held[a.id := a] else held, id)
  {
    if a.id in held { assert Listening(d, a.id, held[a.id]); } else { assert Silent(d, a.id); }
  }

  /** One call, with whatever ports can be bound, keeps the listeners right. */
  lemma CallKeepsHolds(d: Dual, held: map<string, Allocation>, call: Call, ports: Ports)
    requires Holds(d, held) && InKind(held, call) && Exclusive(d, call, ports)
    ensures Holds(Called(d, call, ports), Effect(false, call, Accepts(d, call, ports), held))
  {
    var d', held' := Called(d, call, ports), Effect(false, call, Accepts(d, call, ports), held);
    forall id ensures Right(d', held', id) {
      assert Right(d, held, id);
      match call
      case Initialize =>
      case Delete(_) =>
      case Update(a) =>
        assert Right(d, held, a.id);
        UpdateHeld(d, held, a, id);
      case _ =>
        var a := call.allocation;
        assert Right(d, held, a.id);
        if a.id in held { BindHeld(d, held, call, ports); } else { BindNew(d, held, a, ports, id); }
    }
  }

  lemma NextDual(calls: seq<(Call, bool)>, ports: nat -> Ports, k: nat)
    requires k < |calls|
    ensures DualAfter(calls[..k + 1], ports) == Called(DualAfter(calls[..k], ports), calls[k].0, ports(k))
    ensures Replay(false, calls[..k + 1]) == Effect(false, calls[k].0, calls[k].1, Replay(false, calls[..k]))
    ensures OrderlyCalls(false, calls[..k + 1]) ==>
              InKind(Replay(false, calls[..k]), calls[k].0) && OrderlyCalls(false, calls[..k])
  {
    assert calls[..k + 1][..k] == calls[..k];
  }

  /** After any calls the proxy has the listeners of exactly what the service's runtime is taken to hold. */
  lemma {:induction false} ReplayHolds(calls: seq<(Call, bool)>, ports: nat -> Ports, answers: seq<bool>, n: nat)
    requires n <= |calls| && OrderlyCalls(false, calls[..n])
    requires PortsExclusive(calls, ports) && Answers(calls, ports, answers) && Told(calls, answers)
    ensures Holds(DualAfter(calls[..n], ports), Replay(false, calls[..n]))
  {
    if n > 0 {
      NextDual(calls, ports, n - 1);
      ReplayHolds(calls, ports, answers, n - 1);
      assert ExclusiveAt(calls, ports, n - 1) && answers[n - 1] == AnswerAt(calls, ports, n - 1);
      CallKeepsHolds(DualAfter(calls[..n - 1], ports), Replay(false, calls[..n - 1]), calls[n - 1].0, ports(n - 1));
    }
  }

  method Perform(proxy: RealRuntime, call: Call, ports: Ports) returns (ok: bool)
    requires proxy.Valid()
    modifies proxy, proxy.tcp, proxy.udp
    ensures proxy.Valid() && proxy.State() == old(Called(proxy.State(), call, ports))
    ensures ok == old(Accepts(proxy.State(), call, ports))
  {
    match call {
      case Initialize => ok := true;
      case Delete(id) =>
        var r := proxy.Delete(id);
        ok := r.Ok?;
      case Create(a) =>
        var r := proxy.Create(a, ports.tcp, ports.udp, RuntimeCreateFailed);
        ok := r.Ok?;
      case Restore(a) =>
        var r := proxy.Create(a, ports.tcp, ports.udp, RuntimeRestoreFailed);
        ok := r.Ok?;
      case Update(a) =>
        var r := proxy.Update(a);
        ok := r.Ok?;
    }
  }

  /** Give a new proxy the calls a runtime has answered, and note what the proxy answers. */
  method Follow(calls: seq<(Call, bool)>, ports: nat -> Ports) returns (proxy: RealRuntime, answers: seq<bool>)
    ensures proxy.Valid() && fresh(proxy) && proxy.State() == DualAfter(calls, ports)
    ensures Answers(calls, ports, answers)
  {
    proxy := new RealRuntime();
    answers := [];
    for k := 0 to |calls|
      invariant proxy.Valid() && fresh(proxy) && fresh(proxy.tcp) && fresh(proxy.udp)
      invariant proxy.State() == DualAfter(calls[..k], ports) && |answers| == k
      invariant forall j: nat :: j < k ==> answers[j] == AnswerAt(calls, ports, j)
    {
      NextDual(calls, ports, k);
      var ok := Perform(proxy, calls[k].0, ports(k));
      assert ok == AnswerAt(calls, ports, k);
      answers := answers + [ok];
    }
    assert calls[..|calls|] == calls;
  }

  /** The proxy has for this id exactly the listeners its row calls for, and reports it as the row says. */
  predicate ListensAsStored(t: Tables, d: Dual, id: string) {
    if id !in t.allocations then Silent(d, id) && SnapshotOf(d, id) == None
    else
      && Hydrated(t, id).Some? && Listening(d, id, Hydrated(t, id).value)
      && SnapshotOf(d, id).Some? && Reported(SnapshotOf(d, id).value, Hydrated(t, id).value)
  }

  lemma SyncedListens(t: Tables, d: Dual, held: map<string, Allocation>, id: string)
    requires Right(d, held, id) && ServiceFacts.Synced(t, held, id)
    ensures ListensAsStored(t, d, id)
  {
    if id in held { ListeningIsReported(d, id, held[id]); }
  }

  /**
   The service over the proxy runtime, with a store that fails at will and ports that may be taken.
   Every id whose last mutation did not fail has exactly the listeners its row calls for and is reported
   with the target its hydrated row gives, and an id without a row has none.
   */
  method RunOverProxy(service: AllocationService.Service, ops: seq<ServiceRuns.Op>, ports: nat -> Ports)
    returns (oks: seq<bool>, proxy: RealRuntime, answers: seq<bool>, ghost trace: seq<ServiceRuns.Event>)
    requires service.Valid() && service.kindred && !service.runtime.keepsFailed
    modifies service, service.repo, service.runtime
    ensures service.Valid() && ServiceRuns.Traces(old(service.repo.tables), ops, oks, trace)
    ensures proxy.Valid() && proxy.State() == DualAfter(service.runtime.calls, ports)
    ensures Answers(service.runtime.calls, ports, answers)
    ensures Told(service.runtime.calls, answers) && PortsExclusive(service.runtime.calls, ports) ==>
              forall id :: id !in ServiceRuns.FailedAfter(trace, old(service.suspect)) ==>
                ListensAsStored(service.repo.tables, proxy.State(), id)
  {
    oks, trace := ServiceRuns.Run(service, ops);
    proxy, answers := Follow(service.runtime.calls, ports);
    ghost var calls := service.runtime.calls;
    if Told(calls, answers) && PortsExclusive(calls, ports) {
      assert calls[..|calls|] == calls;
      ReplayHolds(calls, ports, answers, |calls|);
      forall id | id !in ServiceRuns.FailedAfter(trace, old(service.suspect))
        ensures ListensAsStored(service.repo.tables, proxy.State(), id)
      {
        assert Right(proxy.State(), service.runtime.allocations, id);
        SyncedListens(service.repo.tables, proxy.State(), service.runtime.allocations, id);
      }
    }
  }
}
