/**
 The netlink runtime as atomic steps.

 Calls that change it are serialized by a lock of their own, but a call holds the state lock only
 while it projects the rules and again while it records the outcome; the backend runs in between.
 A snapshot takes the state lock alone, so it can see any state a step leaves.
 */
module NetlinkSteps {
  import opened Model
  import opened NftCompiler
  import opened NetlinkRules
  import opened Runtimes

  /** A failing backend call: its message and whatever the kernel holds afterwards. */
  datatype Fault = Fault(message: string, kernelAfter: Ruleset)

  /** Where the call that holds the mutation lock stands. */
  datatype Flight =
    | Idle
    | Projected(call: Call, rules: seq<DnatRule>)
    | Answered(call: Call, rules: seq<DnatRule>, error: Option<string>)

  datatype State = State(
    allocations: Allocations,
    staleError: Option<string>,
    initialized: bool,
    kernel: Ruleset,
    flight: Flight)

  datatype Step =
    | Project(call: Call)
    | Backend(fault: Option<Fault>)
    | Settle

  predicate Enabled(s: State, step: Step) {
    match step
    case Project(_) => s.flight.Idle?
    case Backend(_) => s.flight.Projected?
    case Settle => s.flight.Answered?
  }

  /** The allocations a call would store if it succeeded. */
  function Candidate(s: State, call: Call): Allocations {
    Effect(true, call, true, s.allocations)
  }

  ghost function Apply(syntax: AddrSyntax, s: State, step: Step): State
    requires Enabled(s, step)
  {
    match step
    case Project(call) => s.(flight := Projected(call, Projection(syntax, Candidate(s, call))))
    case Backend(fault) => Answer(s, s.flight.call, s.flight.rules, fault)
    case Settle =>
      var error := s.flight.error;
      s.(allocations := Effect(true, s.flight.call, error.None?, s.allocations), staleError := error,
         initialized := s.initialized || error.None?, flight := Idle)
  }

  /** What the backend leaves when it has been given these rules. */
  function Answer(s: State, call: Call, rules: seq<DnatRule>, fault: Option<Fault>): State {
    match fault
    case None => s.(kernel := Compile(rules), flight := Answered(call, rules, None))
    case Some(f) => s.(kernel := f.kernelAfter, flight := Answered(call, rules, Some(f.message)))
  }

  /** The three steps of a call that nothing comes between. */
  ghost function Whole(syntax: AddrSyntax, s: State, call: Call, fault: Option<Fault>): State
    requires s.flight.Idle?
  {
    Apply(syntax, Apply(syntax, Apply(syntax, s, Project(call)), Backend(fault)), Settle)
  }

  function Start(kernel: Ruleset): State {
    State(map[], None, false, kernel, Idle)
  }

  // ---------------------------------------------------------------- snapshots

  /** observed_state_for, or the degraded state while the runtime knows that it is stale. */
  function Observed(syntax: AddrSyntax, allocations: Allocations, staleError: Option<string>, id: string)
    : Option<ObservedState>
  {
    if id !in allocations then None
    else
      var a := allocations[id];
      match BoundTarget(syntax, a)
      case None => Some(ObservedState(a.targetPort, a.host, RejectingNoHost, None, None))
      case Some(target) =>
        if staleError.Some? then
          Some(ObservedState(a.targetPort, a.host, DegradedApplyFailed, Some(ApplyFailed), staleError))
        else Some(ObservedState(Some(target.1), Some(syntax.show(target.0)), Active, None, None))
  }

  predicate ReportsActive(syntax: AddrSyntax, s: State, id: string) {
    var observed := Observed(syntax, s.allocations, s.staleError, id);
    observed.Some? && observed.value.runtimeStatus == Active
  }

  /** The kernel holds exactly the projection of the stored allocations. */
  ghost predicate InStep(syntax: AddrSyntax, s: State) {
    s.kernel == Compile(Projection(syntax, s.allocations))
  }

  /** Local packets for this allocation go to what it is bound to. */
  ghost predicate ServedAsStored(syntax: AddrSyntax, s: State, id: string)
    requires id in s.allocations
  {
    forall p: Packet, host: IpAddr, port: Port ::
      p.daddrType == RTN_LOCAL && Serves(syntax, s.allocations[id], p, host, port)
      ==> Dispatch(s.kernel, p) == Dnat(host, port)
  }

  // ---------------------------------------------------------------- invariant

  ghost predicate Inv(syntax: AddrSyntax, s: State) {
    && Keyed(s.allocations)
    && (!s.flight.Idle? ==> s.flight.rules == Projection(syntax, Candidate(s, s.flight.call)))
    && match s.flight
       case Answered(_, rules, error) => error.None? ==> s.kernel == Compile(rules)
       case _ => s.staleError.None? && (s.initialized || s.allocations != map[]) ==> InStep(syntax, s)
  }

  lemma StepKeepsInv(syntax: AddrSyntax, s: State, step: Step)
    requires Inv(syntax, s) && Enabled(s, step)
    ensures Inv(syntax, Apply(syntax, s, step))
  {
  }

  ghost predicate Linked(syntax: AddrSyntax, states: seq<State>, steps: seq<Step>, i: nat)
    requires |states| == |steps| + 1 && i < |steps|
  {
    Enabled(states[i], steps[i]) && states[i + 1] == Apply(syntax, states[i], steps[i])
  }

  ghost predicate IsRun(syntax: AddrSyntax, states: seq<State>, steps: seq<Step>) {
    |states| == |steps| + 1 && forall i: nat :: i < |steps| ==> Linked(syntax, states, steps, i)
  }

  lemma {:induction false} RunKeepsInv(syntax: AddrSyntax, states: seq<State>, steps: seq<Step>, i: nat)
    requires IsRun(syntax, states, steps) && Inv(syntax, states[0]) && i <= |steps|
    ensures Inv(syntax, states[i])
  {
    if i > 0 {
      RunKeepsInv(syntax, states, steps, i - 1);
      assert Linked(syntax, states, steps, i - 1);
      StepKeepsInv(syntax, states[i - 1], steps[i - 1]);
    }
  }

  // ------------------------------------------------- what an active status means

  /**
   At any position of any run: outside the moment between a backend call and the recording of its
   outcome, an active status means that the kernel serves every stored allocation.
   */
  lemma ActiveMeansInStep(syntax: AddrSyntax, states: seq<State>, steps: seq<Step>, i: nat, id: string)
    requires IsRun(syntax, states, steps) && Inv(syntax, states[0]) && i <= |steps|
    requires !states[i].flight.Answered? && ReportsActive(syntax, states[i], id)
    ensures InStep(syntax, states[i])
    ensures OverlapFree(states[i].allocations) ==> ServedAsStored(syntax, states[i], id)
  {
    RunKeepsInv(syntax, states, steps, i);
    if OverlapFree(states[i].allocations) { Covered(syntax, states[i], states[i].allocations, id); }
  }

  /** A kernel with the rules of allocations without overlaps serves each one that is bound. */
  lemma Covered(syntax: AddrSyntax, s: State, installed: Allocations, id: string)
    requires Keyed(installed) && OverlapFree(installed) && s.kernel == Compile(Projection(syntax, installed))
    requires id in s.allocations && id in installed && installed[id] == s.allocations[id]
    ensures ServedAsStored(syntax, s, id)
  {
    forall p: Packet, host: IpAddr, port: Port
      | p.daddrType == RTN_LOCAL && Serves(syntax, s.allocations[id], p, host, port)
      ensures Dispatch(s.kernel, p) == Dnat(host, port)
    {
      DispatchExact(syntax, installed, p, host, port);
    }
  }

  /** The same moment, had the backend answered differently; only a call that has its answer changes. */
  function WithOutcome(s: State, fault: Option<Fault>): State {
    if s.flight.Answered? then Answer(s, s.flight.call, s.flight.rules, fault) else s
  }

  /** No snapshot of this moment reports active while the kernel is out of step. */
  ghost predicate ReportsTruly(syntax: AddrSyntax, s: State) {
    forall id :: ReportsActive(syntax, s, id) ==> InStep(syntax, s)
  }

  /** A ruleset that no rule list compiles to. */
  lemma NoRules(rules: seq<DnatRule>) returns (kernel: Ruleset)
    ensures kernel != Compile(rules)
  {
    kernel := Ruleset(map[], [[], [], [], [], []]);
    CompileCorrect(rules, Packet(0, 0, [], 0));
  }

  /**
   Whatever the backend answers, snapshots report truly, exactly when no call is between its backend
   call and its settling, or nothing is reported active at all.
   */
  lemma ReportsTrulyIffSettled(syntax: AddrSyntax, s: State)
    requires Inv(syntax, s)
    ensures (forall fault :: ReportsTruly(syntax, WithOutcome(s, fault)))
            <==> !(s.flight.Answered? && exists id :: ReportsActive(syntax, s, id))
  {
    if s.flight.Answered? && exists id :: ReportsActive(syntax, s, id) {
      var id :| ReportsActive(syntax, s, id);
      var kernel := NoRules(Projection(syntax, s.allocations));
      var other := WithOutcome(s, Some(Fault("", kernel)));
      assert ReportsActive(syntax, other, id) && !InStep(syntax, other);
    } else {
      forall fault ensures ReportsTruly(syntax, WithOutcome(s, fault)) {
        forall id | ReportsActive(syntax, WithOutcome(s, fault), id) ensures InStep(syntax, WithOutcome(s, fault)) {
          assert ReportsActive(syntax, s, id);
        }
      }
    }
  }

  /** The allocation a call is about. */
  function Subject(call: Call): Option<string> {
    match call
    case Initialize => None
    case Create(a) => Some(a.id)
    case Update(a) => Some(a.id)
    case Delete(id) => Some(id)
    case Restore(a) => Some(a.id)
  }

  /** Even then, after a success the report is right for every allocation the call is not about. */
  lemma OthersServedMeanwhile(syntax: AddrSyntax, s: State, id: string)
    requires Inv(syntax, s) && s.flight.Answered? && s.flight.error.None?
    requires OverlapFree(Candidate(s, s.flight.call))
    requires ReportsActive(syntax, s, id) && Subject(s.flight.call) != Some(id)
    ensures ServedAsStored(syntax, s, id)
  {
    Covered(syntax, s, Candidate(s, s.flight.call), id);
  }

  lemma Extend(syntax: AddrSyntax, states: seq<State>, steps: seq<Step>, step: Step)
    returns (states': seq<State>, steps': seq<Step>)
    requires IsRun(syntax, states, steps) && Enabled(states[|steps|], step)
    ensures IsRun(syntax, states', steps') && states'[0] == states[0]
    ensures states'[|steps'|] == Apply(syntax, states[|steps|], step)
  {
    states' := states + [Apply(syntax, states[|steps|], step)];
    steps' := steps + [step];
    forall i: nat | i < |steps'| ensures Linked(syntax, states', steps', i) {
      if i < |steps| { assert Linked(syntax, states, steps, i); }
    }
  }

  /** A local packet for this allocation, of its target's family. */
  lemma PacketFor(a: Allocation, host: IpAddr) returns (p: Packet)
    ensures p.daddrType == RTN_LOCAL && CoversPacket(a, p) && p.nfproto == Family(host)
  {
    var l4proto := if a.protocol == Udp then IPPROTO_UDP else IPPROTO_TCP;
    p := Packet(Family(host), l4proto, [0, 0] + PortBytes(a.port), RTN_LOCAL);
    assert p.transport[2..4] == PortBytes(a.port);
    PortRoundTrip(a.port);
  }

  /** A fresh runtime creates one allocation. */
  lemma CreatedRun(syntax: AddrSyntax, kernel: Ruleset, a: Allocation) returns (states: seq<State>, steps: seq<Step>)
    ensures IsRun(syntax, states, steps) && states[0] == Start(kernel)
    ensures var s := states[|steps|];
            s.flight == Idle && s.allocations == map[a.id := a] && s.staleError == None
  {
    states, steps := [Start(kernel)], [];
    states, steps := Extend(syntax, states, steps, Project(Create(a)));
    states, steps := Extend(syntax, states, steps, Backend(None));
    states, steps := Extend(syntax, states, steps, Settle);
    assert map[][a.id := a] == map[a.id := a];
  }

  /** Then an update of it gets as far as the backend's success. */
  lemma MovingRun(syntax: AddrSyntax, kernel: Ruleset, a: Allocation, moved: Allocation)
    returns (states: seq<State>, steps: seq<Step>)
    requires moved.id == a.id
    ensures IsRun(syntax, states, steps) && states[0] == Start(kernel)
    ensures var s := states[|steps|];
            && s.allocations == map[a.id := a] && s.staleError == None
            && s.kernel == Compile(Projection(syntax, map[a.id := moved]))
  {
    states, steps := CreatedRun(syntax, kernel, a);
    assert Candidate(states[|steps|], Update(moved)) == map[a.id := moved];
    states, steps := Extend(syntax, states, steps, Project(Update(moved)));
    states, steps := Extend(syntax, states, steps, Backend(None));
  }

  /**
   The report that is not right: from a fresh runtime, create any bound allocation and give it another
   target port.  A snapshot after the backend has succeeded still reports the old port as active, while
   the kernel sends the allocation's packets to the new one.
   */
  lemma OvertakenSnapshot(syntax: AddrSyntax, kernel: Ruleset, a: Allocation, host: IpAddr, port: Port, other: Port)
    returns (states: seq<State>, steps: seq<Step>, p: Packet)
    requires BoundTo(syntax, a, host, port) && other != port
    ensures IsRun(syntax, states, steps) && states[0] == Start(kernel)
    ensures var s := states[|steps|];
            && ReportsActive(syntax, s, a.id) && !InStep(syntax, s)
            && Observed(syntax, s.allocations, s.staleError, a.id).value.effectiveTargetPort == Some(port)
            && p.daddrType == RTN_LOCAL && Serves(syntax, a, p, host, port)
            && Dispatch(s.kernel, p) == Dnat(host, other)
  {
    var moved := a.(targetPort := Some(other));
    states, steps := MovingRun(syntax, kernel, a, moved);
    p := PacketFor(a, host);
    OneServed(syntax, a, p, host, port);
    OneServed(syntax, moved, p, host, other);
  }

  /** A kernel with the rules of a single bound allocation sends its packets to its target. */
  lemma OneServed(syntax: AddrSyntax, a: Allocation, p: Packet, host: IpAddr, port: Port)
    requires p.daddrType == RTN_LOCAL && Serves(syntax, a, p, host, port)
    ensures Dispatch(Compile(Projection(syntax, map[a.id := a])), p) == Dnat(host, port)
  {
    assert Serves(syntax, map[a.id := a][a.id], p, host, port);
    DispatchExact(syntax, map[a.id := a], p, host, port);
  }
}
