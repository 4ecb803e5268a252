/** From the store to the packet: what the installed programs do when the runtime holds the hydrated store. */
module EndToEnd {
  import opened Model
  import opened Storage
  import NetlinkRules
  import NftCompiler
  import NetlinkRuntime
  import NetlinkSteps
  import ServiceFacts
  import AllocationService
  import ServiceRuns
  import Runtimes

  /** The runtime's allocations are exactly the hydrated rows. */
  ghost predicate HoldsStore(t: Tables, allocations: map<string, Allocation>) {
    && allocations.Keys == t.allocations.Keys
    && forall id :: id in allocations ==> Hydrated(t, id) == Some(allocations[id])
  }

  /** A store without overlaps gives the data plane allocations that do not overlap. */
  lemma StoreNoOverlap(t: Tables, allocations: map<string, Allocation>)
    requires Storage.OverlapFree(t) && HoldsStore(t, allocations)
    ensures NetlinkRules.Keyed(allocations) && NetlinkRules.OverlapFree(allocations)
  {
    forall id | id in allocations ensures allocations[id].id == id {
      HydratedFrom(t, id, allocations[id]);
    }
    forall x, y | x in allocations && y in allocations && x != y
      ensures !NetlinkRules.Overlap(allocations[x], allocations[y])
    {
      HydratedFrom(t, x, allocations[x]);
      HydratedFrom(t, y, allocations[y]);
      assert !RowsOverlap(t.allocations[x], t.allocations[y]);
    }
  }

  /** Some row covers the packet and is bound to this target, of the packet's family. */
  ghost predicate Served(syntax: NetlinkRules.AddrSyntax, t: Tables, p: NftCompiler.Packet, host: IpAddr, port: Port) {
    exists id :: id in t.allocations && Hydrated(t, id).Some?
                 && NetlinkRules.Serves(syntax, Hydrated(t, id).value, p, host, port)
  }

  /**
   With a store without overlaps and the runtime in step with it, a local packet is sent to a target exactly
   when the row covering its port and protocol hydrates to an allocation bound to that target.
   */
  lemma StoreDecidesDispatch(syntax: NetlinkRules.AddrSyntax, t: Tables, allocations: map<string, Allocation>,
                             p: NftCompiler.Packet, host: IpAddr, port: Port)
    requires Storage.OverlapFree(t) && HoldsStore(t, allocations) && p.daddrType == NftCompiler.RTN_LOCAL
    ensures NftCompiler.Dispatch(NftCompiler.Compile(NetlinkRules.Projection(syntax, allocations)), p) ==
            NftCompiler.Dnat(host, port)
            <==> Served(syntax, t, p, host, port)
  {
    StoreNoOverlap(t, allocations);
    NetlinkRules.DispatchExact(syntax, allocations, p, host, port);
    if id :| id in allocations && NetlinkRules.Serves(syntax, allocations[id], p, host, port) {
      assert Hydrated(t, id).value == allocations[id];
    }
    if id :| id in t.allocations && Hydrated(t, id).Some?
             && NetlinkRules.Serves(syntax, Hydrated(t, id).value, p, host, port)
    {
      assert allocations[id] == Hydrated(t, id).value;
    }
  }

  // ------------------------------------------------- the service over netlink

  /** Every row that stands for an allocation, as that allocation. */
  ghost function HydratedStore(t: Tables): map<string, Allocation> {
    map id | id in t.allocations && Hydrated(t, id).Some? :: Hydrated(t, id).value
  }

  /** With every id in step, the runtime holds the hydrated store and nothing else. */
  lemma InStepHoldsStore(t: Tables, allocations: map<string, Allocation>)
    requires forall id :: ServiceFacts.Synced(t, allocations, id)
    ensures HoldsStore(t, allocations) && allocations == HydratedStore(t)
  {
    forall id ensures id in allocations <==> id in t.allocations { assert ServiceFacts.Synced(t, allocations, id); }
    forall id | id in allocations ensures Hydrated(t, id) == Some(allocations[id]) {
      assert ServiceFacts.Synced(t, allocations, id);
    }
  }

  /** The calls a runtime has answered, as calls of the netlink runtime: each failed one failed in its own way. */
  function WithFaults(calls: seq<(Runtimes.Call, bool)>, faultAt: nat -> NetlinkSteps.Fault)
    : (r: seq<(Runtimes.Call, Option<NetlinkSteps.Fault>)>)
    ensures |r| == |calls|
  {
    seq(|calls|, k requires 0 <= k < |calls| => (calls[k].0, if calls[k].1 then None else Some(faultAt(k))))
  }

  /** The netlink runtime stores what the service's runtime is taken to hold. */
  lemma {:induction false} StoredIsReplay(calls: seq<(Runtimes.Call, bool)>, faultAt: nat -> NetlinkSteps.Fault)
    ensures NetlinkRuntime.Stored(WithFaults(calls, faultAt), map[]) == Runtimes.Replay(true, calls)
  {
    if calls != [] {
      var front := calls[..|calls| - 1];
      StoredIsReplay(front, faultAt);
      assert WithFaults(calls, faultAt)[..|calls| - 1] == WithFaults(front, faultAt);
    }
  }

  /** What a packet meets when the kernel holds the rules of this store. */
  ghost predicate StoreRules(syntax: NetlinkRules.AddrSyntax, t: Tables, kernel: NftCompiler.Ruleset) {
    && kernel == NftCompiler.Compile(NetlinkRules.Projection(syntax, HydratedStore(t)))
    && (Storage.OverlapFree(t) ==> forall p: NftCompiler.Packet, host: IpAddr, port: Port ::
          p.daddrType == NftCompiler.RTN_LOCAL ==>
            (NftCompiler.Dispatch(kernel, p) == NftCompiler.Dnat(host, port) <==> Served(syntax, t, p, host, port)))
  }

  lemma InStepStoreRules(syntax: NetlinkRules.AddrSyntax, t: Tables, allocations: map<string, Allocation>,
                         kernel: NftCompiler.Ruleset)
    requires forall id :: ServiceFacts.Synced(t, allocations, id)
    requires kernel == NftCompiler.Compile(NetlinkRules.Projection(syntax, allocations))
    ensures StoreRules(syntax, t, kernel)
  {
    InStepHoldsStore(t, allocations);
    if Storage.OverlapFree(t) {
      forall p: NftCompiler.Packet, host: IpAddr, port: Port | p.daddrType == NftCompiler.RTN_LOCAL
        ensures NftCompiler.Dispatch(kernel, p) == NftCompiler.Dnat(host, port) <==> Served(syntax, t, p, host, port)
      {
        StoreDecidesDispatch(syntax, t, allocations, p, host, port);
      }
    }
  }

  /** Give a new netlink runtime the calls a runtime has answered, failing where that one failed. */
  method Follow(runtime: Runtimes.Runtime, syntax: NetlinkRules.AddrSyntax, kernel: NftCompiler.Ruleset,
                faultAt: nat -> NetlinkSteps.Fault)
    returns (netlink: NetlinkRuntime.Netlink)
    requires runtime.Valid() && runtime.keepsFailed
    ensures fresh(netlink) && netlink.Valid() && netlink.syntax == syntax && netlink.allocations == runtime.allocations
    ensures runtime.calls != [] && runtime.calls[|runtime.calls| - 1].1 ==> netlink.InStep()
  {
    netlink := new NetlinkRuntime.Netlink(syntax, kernel);
    netlink.Run(WithFaults(runtime.calls, faultAt));
    StoredIsReplay(runtime.calls, faultAt);
  }

  /**
   The service over the netlink runtime, with a store and a backend that fail at will and a kernel
   that holds anything after a failure.  If in the end no id's last mutation had failed and the last
   backend call succeeded, the kernel holds exactly the rules of the store, and treats every local
   packet as the row covering it says.
   */
  method RunOverNetlink(service: AllocationService.Service, ops: seq<ServiceRuns.Op>, syntax: NetlinkRules.AddrSyntax,
                        kernel: NftCompiler.Ruleset, faultAt: nat -> NetlinkSteps.Fault)
    returns (oks: seq<bool>, netlink: NetlinkRuntime.Netlink, ghost trace: seq<ServiceRuns.Event>)
    requires service.Valid() && service.runtime.keepsFailed
    modifies service, service.repo, service.runtime
    ensures service.Valid() && ServiceRuns.Traces(old(service.repo.tables), ops, oks, trace)
    ensures service.repo.tables == ServiceRuns.TablesAfter(old(service.repo.tables), trace)
    ensures old(ServiceRuns.SoundFor(service)) ==> ServiceRuns.SoundFor(service)
    ensures netlink.Valid() && netlink.allocations == service.runtime.allocations
    ensures var calls := service.runtime.calls;
            calls != [] && calls[|calls| - 1].1 && ServiceRuns.FailedAfter(trace, old(service.suspect)) == {}
            ==> StoreRules(syntax, service.repo.tables, netlink.kernel)
  {
    oks, trace := ServiceRuns.Run(service, ops);
    netlink := Follow(service.runtime, syntax, kernel, faultAt);
    if netlink.InStep() && ServiceRuns.FailedAfter(trace, old(service.suspect)) == {} {
      InStepStoreRules(syntax, service.repo.tables, netlink.allocations, netlink.kernel);
    }
  }
}
