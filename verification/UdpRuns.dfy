/** What holds along every interleaving of a UDP listener's tasks. */
module UdpRuns {
  import opened Model
  import opened UdpSessions

  ghost predicate Linked(cfg: Config, states: seq<Listener>, steps: seq<Step>, i: nat)
    requires |states| == |steps| + 1 && i < |steps|
  {
    Enabled(cfg, states[i], steps[i]) && states[i + 1] == Apply(cfg, states[i], steps[i])
  }

  ghost predicate IsRun(cfg: Config, states: seq<Listener>, steps: seq<Step>) {
    |states| == |steps| + 1 && forall i: nat :: i < |steps| ==> Linked(cfg, states, steps, i)
  }

  /** How many updates publish during these steps. */
  function Updates(steps: seq<Step>): nat {
    if steps == [] then 0
    else Updates(steps[..|steps| - 1]) + if steps[|steps| - 1].Publish? then 1 else 0
  }

  /** The counter has room for all the updates of the run. */
  ghost predicate Fits(cfg: Config, start: Listener, steps: seq<Step>) {
    start.generation + Updates(steps) <= cfg.maxGeneration
  }

  /** No update is between publishing its generation and draining the table. */
  predicate Quiet(s: Listener) {
    s.writer.None? && s.undrained == multiset{}
  }

  /** Every mapped session is of the current generation and connected to the current target. */
  ghost predicate Current(s: Listener) {
    forall client :: client in s.sessions ==>
      s.sessions[client] in s.heap &&
      s.heap[s.sessions[client]].generation == s.generation == s.entry.generation &&
      s.entry.target == Some(s.heap[s.sessions[client]].target)
  }

  lemma {:induction false} UpdatesGrow(steps: seq<Step>, i: nat)
    requires i <= |steps|
    ensures Updates(steps[..i]) <= Updates(steps)
  {
    if i == |steps| {
      assert steps[..i] == steps;
    } else {
      var front := steps[..|steps| - 1];
      UpdatesGrow(front, i);
      assert front[..i] == steps[..i];
    }
  }

  lemma LinkKeepsInv(cfg: Config, s: Listener, step: Step)
    requires Inv(cfg, s) && Enabled(cfg, s, step) && (step.Publish? ==> s.generation < cfg.maxGeneration)
    ensures Inv(cfg, Apply(cfg, s, step))
    ensures Apply(cfg, s, step).generation == s.generation + if step.Publish? then 1 else 0
  {
    StepKeepsInv(cfg, s, step);
  }

  /** The invariant holds at every position, and the counter counts the updates. */
  lemma {:induction false} RunKeepsInv(cfg: Config, states: seq<Listener>, steps: seq<Step>, i: nat)
    requires IsRun(cfg, states, steps) && Inv(cfg, states[0]) && Fits(cfg, states[0], steps)
    requires i <= |steps|
    ensures Inv(cfg, states[i])
    ensures states[i].generation == states[0].generation + Updates(steps[..i])
  {
    if i > 0 {
      RunKeepsInv(cfg, states, steps, i - 1);
      assert Linked(cfg, states, steps, i - 1);
      assert steps[..i][..i - 1] == steps[..i - 1];
      UpdatesGrow(steps, i);
      LinkKeepsInv(cfg, states[i - 1], steps[i - 1]);
    }
  }

  /** In every interleaving, whenever no update is pending, the table serves only the current target. */
  lemma QuietMeansCurrent(cfg: Config, states: seq<Listener>, steps: seq<Step>, i: nat)
    requires IsRun(cfg, states, steps) && Inv(cfg, states[0]) && Fits(cfg, states[0], steps)
    requires i <= |steps| && Quiet(states[i])
    ensures Current(states[i])
  {
    RunKeepsInv(cfg, states, steps, i);
    var s := states[i];
    forall client | client in s.sessions
      ensures s.sessions[client] in s.heap
      ensures s.heap[s.sessions[client]].generation == s.generation == s.entry.generation
      ensures s.entry.target == Some(s.heap[s.sessions[client]].target)
    {
      assert EntryHonest(s, client) && SessionHonest(s, s.heap[s.sessions[client]]);
      assert s.generation !in s.undrained;
    }
  }

  /** The table's size, keys and flags in every interleaving. */
  lemma TableSafety(cfg: Config, states: seq<Listener>, steps: seq<Step>, i: nat)
    requires IsRun(cfg, states, steps) && Inv(cfg, states[0]) && Fits(cfg, states[0], steps)
    requires i <= |steps|
    ensures |states[i].sessions| <= cfg.maxSessions
    ensures forall client :: client in states[i].sessions ==>
              var id := states[i].sessions[client];
              && id in states[i].heap && states[i].heap[id].client == client
              && (states[i].heap[id].generation == states[i].generation ==> id !in states[i].closed)
  {
    RunKeepsInv(cfg, states, steps, i);
    forall client | client in states[i].sessions ensures EntryHonest(states[i], client) {}
  }

  lemma {:induction false} GenerationGrows(cfg: Config, states: seq<Listener>, steps: seq<Step>, i: nat, j: nat)
    requires IsRun(cfg, states, steps) && Inv(cfg, states[0]) && Fits(cfg, states[0], steps)
    requires i <= j <= |steps|
    ensures states[i].generation <= states[j].generation
  {
    RunKeepsInv(cfg, states, steps, i);
    RunKeepsInv(cfg, states, steps, j);
    assert steps[..j][..i] == steps[..i];
    UpdatesGrow(steps[..j], i);
  }

  /**
   Once a generation is published, a reply that passes the check later belongs to a session of
   that generation or a newer one, and that session is connected to the target published with it.
   */
  lemma NoStaleReply(cfg: Config, states: seq<Listener>, steps: seq<Step>, i: nat, j: nat, id: SessionId)
    requires IsRun(cfg, states, steps) && Inv(cfg, states[0]) && Fits(cfg, states[0], steps)
    requires i <= j < |steps| && steps[j] == ReplyPass(id)
    ensures id in states[j].heap
    ensures states[i].generation <= states[j].heap[id].generation == states[j].generation
    ensures Published(states[j], states[j].generation, Some(states[j].heap[id].target))
    ensures states[j].writer.None? ==> states[j].entry.target == Some(states[j].heap[id].target)
    ensures Mapped(states[j], id) && id !in states[j].closed
  {
    assert Linked(cfg, states, steps, j);
    RunKeepsInv(cfg, states, steps, j);
    GenerationGrows(cfg, states, steps, i, j);
    assert SessionHonest(states[j], states[j].heap[id]);
    assert EntryHonest(states[j], states[j].heap[id].client);
  }

  // ------------------------------------------------------ what updates were given

  lemma PublishGives(cfg: Config, s: Listener, target: Option<Target>)
    requires Inv(cfg, s) && Enabled(cfg, s, Publish(target)) && s.generation < cfg.maxGeneration
    ensures Published(Apply(cfg, s, Publish(target)), s.generation + 1, target)
  {
  }

  /** No later step changes what an earlier generation stands for. */
  lemma PublishedStays(cfg: Config, s: Listener, step: Step, g: nat, target: Option<Target>)
    requires Inv(cfg, s) && Enabled(cfg, s, step) && (step.Publish? ==> s.generation < cfg.maxGeneration)
    requires g <= s.generation && Published(s, g, target)
    ensures Published(Apply(cfg, s, step), g, target)
  {
  }

  /** Every step of a fitting run finds room, and the counter is past an update once it has published. */
  lemma RoomAlong(cfg: Config, states: seq<Listener>, steps: seq<Step>, i: nat, j: nat)
    requires IsRun(cfg, states, steps) && Inv(cfg, states[0]) && Fits(cfg, states[0], steps)
    requires i < j <= |steps|
    ensures Inv(cfg, states[i]) && (steps[i].Publish? ==> states[i].generation < cfg.maxGeneration)
    ensures steps[i].Publish? ==> states[i].generation + 1 <= states[j].generation
  {
    RunKeepsInv(cfg, states, steps, i);
    RunKeepsInv(cfg, states, steps, i + 1);
    GenerationGrows(cfg, states, steps, i + 1, j);
    UpdatesGrow(steps, i + 1);
    assert steps[..i + 1][..i] == steps[..i];
  }

  lemma PublishedFirst(cfg: Config, states: seq<Listener>, steps: seq<Step>, i: nat)
    requires IsRun(cfg, states, steps) && Inv(cfg, states[0]) && Fits(cfg, states[0], steps)
    requires i < |steps| && steps[i].Publish?
    ensures Published(states[i + 1], states[i].generation + 1, steps[i].target)
  {
    assert Linked(cfg, states, steps, i);
    RoomAlong(cfg, states, steps, i, i + 1);
    PublishGives(cfg, states[i], steps[i].target);
  }

  lemma PublishedNext(cfg: Config, states: seq<Listener>, steps: seq<Step>, i: nat, k: nat)
    requires IsRun(cfg, states, steps) && Inv(cfg, states[0]) && Fits(cfg, states[0], steps)
    requires i < k < |steps| && steps[i].Publish?
    requires Published(states[k], states[i].generation + 1, steps[i].target)
    ensures Published(states[k + 1], states[i].generation + 1, steps[i].target)
  {
    assert Linked(cfg, states, steps, k);
    RoomAlong(cfg, states, steps, k, k + 1);
    RoomAlong(cfg, states, steps, i, k);
    PublishedStays(cfg, states[k], steps[k], states[i].generation + 1, steps[i].target);
  }

  /** What an update was given is what its generation stands for, ever after. */
  lemma {:induction false} PublishedAsGiven(cfg: Config, states: seq<Listener>, steps: seq<Step>, i: nat, j: nat)
    requires IsRun(cfg, states, steps) && Inv(cfg, states[0]) && Fits(cfg, states[0], steps)
    requires i < j <= |steps| && steps[i].Publish?
    ensures Published(states[j], states[i].generation + 1, steps[i].target)
    decreases j
  {
    if i < j - 1 {
      PublishedAsGiven(cfg, states, steps, i, j - 1);
      PublishedNext(cfg, states, steps, i, j - 1);
    } else {
      PublishedFirst(cfg, states, steps, i);
    }
  }

  /** The target the last update of these steps was given, or the one before any. */
  function LastGiven(initial: Option<Target>, steps: seq<Step>): Option<Target> {
    if steps == [] then initial
    else
      var last := steps[|steps| - 1];
      if last.Publish? then last.target else LastGiven(initial, steps[..|steps| - 1])
  }

  /** The target of the update that holds the write lock, or else of the committed entry. */
  function TargetInForce(s: Listener): Option<Target> {
    if s.writer.Some? then s.writer.value.target else s.entry.target
  }

  lemma TargetStep(cfg: Config, s: Listener, step: Step)
    requires Enabled(cfg, s, step)
    ensures TargetInForce(Apply(cfg, s, step)) == if step.Publish? then step.target else TargetInForce(s)
  {
  }

  /** The entry always stands for the last update. */
  lemma {:induction false} EntryIsLastGiven(cfg: Config, states: seq<Listener>, steps: seq<Step>, i: nat)
    requires IsRun(cfg, states, steps) && i <= |steps|
    ensures TargetInForce(states[i]) == LastGiven(TargetInForce(states[0]), steps[..i])
  {
    if i > 0 {
      EntryIsLastGiven(cfg, states, steps, i - 1);
      assert Linked(cfg, states, steps, i - 1);
      TargetStep(cfg, states[i - 1], steps[i - 1]);
      assert steps[..i][..i - 1] == steps[..i - 1];
    }
  }

  /** Whenever no update is pending, every mapped session is connected to what the last update was given. */
  lemma QuietMeansLastGiven(cfg: Config, states: seq<Listener>, steps: seq<Step>, i: nat)
    requires IsRun(cfg, states, steps) && Inv(cfg, states[0]) && Fits(cfg, states[0], steps)
    requires i <= |steps| && Quiet(states[i])
    ensures forall client :: client in states[i].sessions ==>
              && states[i].sessions[client] in states[i].heap
              && Some(states[i].heap[states[i].sessions[client]].target)
                 == LastGiven(TargetInForce(states[0]), steps[..i])
  {
    QuietMeansCurrent(cfg, states, steps, i);
    EntryIsLastGiven(cfg, states, steps, i);
  }

  // --------------------------------------------------------- closing reply tasks

  predicate AccountedFor(s: Listener, id: SessionId) {
    Mapped(s, id) || id in s.doomed || id in s.closed
  }

  /** Every session that has had a reply task is mapped, closed, or about to be closed. */
  ghost predicate Accounted(s: Listener) {
    forall id :: id in s.replying ==> AccountedFor(s, id)
  }

  /** Whoever unmaps a session is about to close it. */
  lemma UnmappedIsDoomed(cfg: Config, s: Listener, step: Step, id: SessionId)
    requires TableHonest(cfg, s) && Enabled(cfg, s, step) && Mapped(s, id)
    requires step.Create? ==> step.id != id
    ensures AccountedFor(Apply(cfg, s, step), id)
  {
    var client := s.heap[id].client;
    assert s.sessions[client] in s.sessions.Values;
    assert EntryHonest(s, client);
  }

  /** What is closed or about to be stays so. */
  lemma DoomStays(cfg: Config, s: Listener, step: Step, id: SessionId)
    requires Enabled(cfg, s, step) && (id in s.doomed || id in s.closed)
    ensures id in Apply(cfg, s, step).doomed || id in Apply(cfg, s, step).closed
  {
  }

  lemma StepKeepsAccounted(cfg: Config, s: Listener, step: Step, id: SessionId)
    requires Inv(cfg, s) && Accounted(s) && Enabled(cfg, s, step) && id in Apply(cfg, s, step).replying
    ensures AccountedFor(Apply(cfg, s, step), id)
  {
    if id !in s.replying {
      assert step.Insert? && id == s.receiver.id && Private(s, s.receiver);
    } else if Mapped(s, id) {
      UnmappedIsDoomed(cfg, s, step, id);
    } else {
      assert AccountedFor(s, id);
      DoomStays(cfg, s, step, id);
    }
  }

  /** In every interleaving no session outside the table keeps its reply task unnoticed. */
  lemma {:induction false} NoReplyTaskForgotten(cfg: Config, states: seq<Listener>, steps: seq<Step>, i: nat)
    requires IsRun(cfg, states, steps) && Inv(cfg, states[0]) && Fits(cfg, states[0], steps) && Accounted(states[0])
    requires i <= |steps|
    ensures Accounted(states[i])
  {
    if i > 0 {
      NoReplyTaskForgotten(cfg, states, steps, i - 1);
      RunKeepsInv(cfg, states, steps, i - 1);
      assert Linked(cfg, states, steps, i - 1);
      forall id | id in states[i].replying ensures AccountedFor(states[i], id) {
        StepKeepsAccounted(cfg, states[i - 1], steps[i - 1], id);
      }
    }
  }

  /** A reply task that fails its check has its session closed or about to be closed, for good. */
  lemma {:induction false} StaleReplyCloses(cfg: Config, states: seq<Listener>, steps: seq<Step>, i: nat, j: nat,
                                            id: SessionId)
    requires IsRun(cfg, states, steps) && i < j <= |steps| && steps[i] == ReplyStale(id)
    ensures id in states[j].doomed || id in states[j].closed
    decreases j
  {
    assert Linked(cfg, states, steps, j - 1);
    if i < j - 1 {
      StaleReplyCloses(cfg, states, steps, i, j - 1, id);
      DoomStays(cfg, states[j - 1], steps[j - 1], id);
    }
  }

  /** After the final drain of a deleted listener the table stays empty. */
  lemma {:induction false} StoppedStaysEmpty(cfg: Config, states: seq<Listener>, steps: seq<Step>, i: nat, j: nat)
    requires IsRun(cfg, states, steps)
    requires i < j <= |steps| && steps[i] == StopDrain
    ensures states[j].sessions == map[] && states[j].receiver == Halted
  {
    assert Linked(cfg, states, steps, j - 1);
    if j - 1 > i {
      StoppedStaysEmpty(cfg, states, steps, i, j - 1);
    }
  }

  // ------------------------------------------------- the counter's last value

  /** From here, no interleaving with at most one update leaves a stale session behind. */
  ghost predicate SafeForOneUpdate(cfg: Config, s: Listener) {
    forall states: seq<Listener>, steps: seq<Step> ::
      IsRun(cfg, states, steps) && states[0] == s && Updates(steps) <= 1 && Quiet(states[|steps|])
      ==> Current(states[|steps|])
  }

  lemma Extend(cfg: Config, states: seq<Listener>, steps: seq<Step>, step: Step)
    returns (states': seq<Listener>, steps': seq<Step>)
    requires IsRun(cfg, states, steps) && Enabled(cfg, states[|steps|], step)
    ensures IsRun(cfg, states', steps') && states'[0] == states[0]
    ensures states'[|steps'|] == Apply(cfg, states[|steps|], step)
    ensures Updates(steps') == Updates(steps) + if step.Publish? then 1 else 0
  {
    states' := states + [Apply(cfg, states[|steps|], step)];
    steps' := steps + [step];
    forall i: nat | i < |steps'| ensures Linked(cfg, states', steps', i) {
      if i < |steps| { assert Linked(cfg, states, steps, i); }
    }
    assert steps'[..|steps|] == steps;
  }

  /** The receive task overtaken by a whole update that could not advance the counter. */
  lemma OvertakenRun(cfg: Config, s: Listener) returns (states: seq<Listener>, steps: seq<Step>)
    requires Inv(cfg, s) && Quiet(s) && s.receiver.Idle? && s.entry.target.Some? && cfg.maxSessions > 0
    requires s.generation >= cfg.maxGeneration
    ensures IsRun(cfg, states, steps) && states[0] == s && Updates(steps) == 1
    ensures Quiet(states[|steps|]) && !Current(states[|steps|])
  {
    states, steps := [s], [];
    states, steps := Extend(cfg, states, steps, TakeSnapshot);
    states, steps := Extend(cfg, states, steps, Publish(None));
    states, steps := Extend(cfg, states, steps, Commit);
    states, steps := Extend(cfg, states, steps, Drain(s.generation));
    assert Quiet(states[|steps|]);
    states, steps := InsertRun(cfg, states, steps);
  }

  /** With an empty table, a receive task whose generation still matches inserts its session. */
  lemma InsertRun(cfg: Config, states: seq<Listener>, steps: seq<Step>)
    returns (states': seq<Listener>, steps': seq<Step>)
    requires IsRun(cfg, states, steps) && cfg.maxSessions > 0
    requires states[|steps|].receiver.Ready? && states[|steps|].sessions == map[]
    requires states[|steps|].generation == states[|steps|].receiver.generation
    ensures IsRun(cfg, states', steps') && states'[0] == states[0] && Updates(steps') == Updates(steps)
    ensures Quiet(states[|steps|]) ==> Quiet(states'[|steps'|])
    ensures Current(states'[|steps'|]) ==> states[|steps|].entry.target == Some(states[|steps|].receiver.target)
  {
    var s := states[|steps|];
    var client := SocketAddr(V4([0, 0, 0, 0]), 0);
    var id := FreshId(s.heap);
    states', steps' := Extend(cfg, states, steps, Lookup(client));
    states', steps' := Extend(cfg, states', steps', Create(id));
    states', steps' := Extend(cfg, states', steps', Recheck);
    states', steps' := Extend(cfg, states', steps', Insert);
    assert client in states'[|steps'|].sessions;
  }

  /** An update is safe against the receive task exactly while the counter can still advance. */
  lemma UpdateSafeIffCounterAdvances(cfg: Config, s: Listener)
    requires Inv(cfg, s) && Quiet(s) && s.receiver.Idle? && s.entry.target.Some? && cfg.maxSessions > 0
    ensures SafeForOneUpdate(cfg, s) <==> s.generation < cfg.maxGeneration
  {
    if s.generation < cfg.maxGeneration {
      forall states: seq<Listener>, steps: seq<Step>
        | IsRun(cfg, states, steps) && states[0] == s && Updates(steps) <= 1 && Quiet(states[|steps|])
        ensures Current(states[|steps|])
      {
        QuietMeansCurrent(cfg, states, steps, |steps|);
      }
    } else {
      var states, steps := OvertakenRun(cfg, s);
    }
  }
}
