/**
 The UDP listener of one relay port as interleaved atomic steps.

 One receive task, one reply task per session, a cleanup task and any number of
 control-plane updates share the session table (behind a mutex), the entry state
 (behind a read-write lock) and a generation counter that is published while only
 the write lock is held.  A step is one critical section or one atomic access, so a
 run of steps is one interleaving.  Sessions have identities because the code
 compares them by pointer.
 */
module UdpSessions {
  import opened Model

  type SessionId = nat

  datatype Target = Target(host: string, port: Port)

  datatype SocketAddr = SocketAddr(ip: IpAddr, port: Port)

  datatype Session = Session(generation: nat, client: SocketAddr, target: Target)

  datatype EntryState = EntryState(target: Option<Target>, generation: nat)

  /** The counter is a u64 that saturates; the bound is a parameter here. */
  datatype Config = Config(maxSessions: nat, maxGeneration: nat)

  /** Where the receive task stands between two atomic steps. */
  datatype Receiver =
    | Idle
    | Halted
    | Ready(generation: nat, target: Target)
    | Missed(generation: nat, target: Target, client: SocketAddr)
    | Created(generation: nat, target: Target, client: SocketAddr, id: SessionId)
    | Inserting(generation: nat, target: Target, client: SocketAddr, id: SessionId)  // holds the session mutex

  datatype Listener = Listener(
    heap: map<SessionId, Session>,              // every session ever created
    closed: set<SessionId>,                     // sessions whose closed flag is set
    sessions: map<SocketAddr, SessionId>,       // the table behind the mutex
    generation: nat,                            // the atomic counter
    entry: EntryState,                          // behind the read-write lock
    writer: Option<EntryState>,                 // Some: an update holds the write lock and has published
    undrained: multiset<nat>,                   // generations whose update has not drained the table yet
    doomed: set<SessionId>,                     // some task is about to set the closed flag
    replying: set<SessionId>,                   // sessions that have had a reply task
    receiver: Receiver,
    published: map<nat, Option<Target>>)        // history: the target published with each generation

  datatype Step =
    // control plane
    | Publish(target: Option<Target>)
    | Commit
    | Drain(generation: nat)
    | AbortReceiver
    | StopDrain
    // whoever removed a session, after leaving the mutex
    | Close(id: SessionId)
    // reply tasks
    | ReplyPass(id: SessionId)
    | ReplyStale(id: SessionId)
    // reply, cleanup and receive tasks
    | RemoveIfSame(client: SocketAddr, id: SessionId)
    // receive task
    | TakeSnapshot
    | Lookup(client: SocketAddr)
    | CreateFails
    | Create(id: SessionId)
    | Recheck
    | Insert
    | MarkStale(id: SessionId)
    | FinishBatch

  predicate MutexFree(s: Listener) {
    !s.receiver.Inserting?
  }

  /** The table maps this session's own client to this very session. */
  predicate Mapped(s: Listener, id: SessionId) {
    id in s.heap && s.heap[id].client in s.sessions && s.sessions[s.heap[id].client] == id
  }

  /** The reply task's test: still the mapped session, and of the published generation. */
  predicate PassesReplyCheck(s: Listener, id: SessionId) {
    Mapped(s, id) && s.heap[id].generation == s.generation
  }

  /** A lookup for this client and generation can be served from the table. */
  predicate Hit(s: Listener, client: SocketAddr, generation: nat) {
    client in s.sessions && s.sessions[client] in s.heap &&
    s.heap[s.sessions[client]].generation == generation
  }

  function NextGeneration(cfg: Config, current: nat): nat {
    if current < cfg.maxGeneration then current + 1 else current
  }

  predicate Enabled(cfg: Config, s: Listener, step: Step) {
    match step
    case Publish(_) => s.writer.None?
    case Commit => s.writer.Some?
    case Drain(g) =>
      MutexFree(s) &&
      s.undrained[g] > if s.writer.Some? && s.writer.value.generation == g then 1 else 0
    case AbortReceiver => true
    case StopDrain => s.receiver.Halted?
    case Close(id) => id in s.doomed
    case ReplyPass(id) => MutexFree(s) && id in s.replying && PassesReplyCheck(s, id)
    case ReplyStale(id) => MutexFree(s) && id in s.replying && !PassesReplyCheck(s, id)
    case RemoveIfSame(client, id) => MutexFree(s)
    case TakeSnapshot => s.receiver.Idle? && s.writer.None?
    case Lookup(_) => s.receiver.Ready?
    case CreateFails => s.receiver.Missed?
    case Create(id) => s.receiver.Missed? && id !in s.heap
    case Recheck => s.receiver.Created?
    case Insert => s.receiver.Inserting?
    case MarkStale(id) =>
      s.receiver.Ready? && id in s.heap &&
      s.heap[id].generation == s.receiver.generation != s.generation
    case FinishBatch => s.receiver.Ready?
  }

  function Apply(cfg: Config, s: Listener, step: Step): Listener
    requires Enabled(cfg, s, step)
  {
    match step
    case Publish(target) =>
      var g := NextGeneration(cfg, s.entry.generation);
      s.(generation := g, writer := Some(EntryState(target, g)),
         undrained := s.undrained + multiset{g}, published := s.published[g := target])
    case Commit =>
      s.(entry := s.writer.value, writer := None)
    case Drain(g) =>
      s.(sessions := map[], doomed := s.doomed + s.sessions.Values,
         undrained := s.undrained - multiset{g})
    case AbortReceiver =>
      s.(receiver := Halted)
    case StopDrain =>
      s.(sessions := map[], doomed := s.doomed + s.sessions.Values)
    case Close(id) =>
      s.(closed := s.closed + {id}, doomed := s.doomed - {id})
    case ReplyPass(_) => s
    case ReplyStale(id) =>
      s.(doomed := s.doomed + {id})
    case RemoveIfSame(client, id) =>
      if client in s.sessions && s.sessions[client] == id then
        s.(sessions := s.sessions - {client}, doomed := s.doomed + {id})
      else s
    case TakeSnapshot =>
      if s.entry.target.Some? then
        s.(receiver := Ready(s.entry.generation, s.entry.target.value))
      else s
    case Lookup(client) =>
      var r := s.receiver;
      if Hit(s, client, r.generation) || |s.sessions| >= cfg.maxSessions then s
      else s.(receiver := Missed(r.generation, r.target, client))
    case CreateFails =>
      s.(receiver := Ready(s.receiver.generation, s.receiver.target))
    case Create(id) =>
      var r := s.receiver;
      s.(heap := s.heap[id := Session(r.generation, r.client, r.target)],
         receiver := Created(r.generation, r.target, r.client, id))
    case Recheck =>
      var r := s.receiver;
      if Hit(s, r.client, r.generation) || s.generation != r.generation then
        s.(receiver := Ready(r.generation, r.target))
      else
        s.(receiver := Inserting(r.generation, r.target, r.client, r.id))
    case Insert =>
      var r := s.receiver;
      var replaced := if r.client in s.sessions then {s.sessions[r.client]} else {};
      s.(sessions := s.sessions[r.client := r.id], doomed := s.doomed + replaced,
         replying := s.replying + {r.id}, receiver := Ready(r.generation, r.target))
    case MarkStale(id) =>
      s.(closed := s.closed + {id})
    case FinishBatch =>
      s.(receiver := Idle)
  }

  function Start(target: Option<Target>): Listener {
    Listener(map[], {}, map[], 0, EntryState(target, 0), None, multiset{}, {}, {}, Idle, map[0 := target])
  }

  /** Pointer identities never run out. */
  lemma FreshId(heap: map<SessionId, Session>) returns (id: SessionId)
    ensures id !in heap
  {
    id := 0;
    var rest := heap.Keys;
    while rest != {}
      invariant forall k :: k in heap && k !in rest ==> k < id
      decreases rest
    {
      var k :| k in rest;
      if k >= id { id := k + 1; }
      rest := rest - {k};
    }
  }

  // ---------------------------------------------------------------- invariant

  /** Every generation newer than g still has its drain ahead of it. */
  ghost predicate DrainsPending(s: Listener, g: nat) {
    forall k: nat :: g < k <= s.generation ==> k in s.undrained
  }

  ghost predicate GenerationsAgree(s: Listener) {
    && (s.writer.None? ==> s.entry.generation == s.generation)
    && (s.writer.Some? ==> s.writer.value.generation == s.generation == s.entry.generation + 1
                           && s.generation in s.undrained
                           && Published(s, s.generation, s.writer.value.target))
    && Published(s, s.entry.generation, s.entry.target)
  }

  ghost predicate Published(s: Listener, g: nat, target: Option<Target>) {
    g in s.published && s.published[g] == target
  }

  ghost predicate SessionHonest(s: Listener, session: Session) {
    session.generation <= s.generation && Published(s, session.generation, Some(session.target))
  }

  ghost predicate HeapHonest(s: Listener) {
    forall id :: id in s.heap ==> SessionHonest(s, s.heap[id])
  }

  /** What holds of the entry under one key of the table. */
  ghost predicate EntryHonest(s: Listener, client: SocketAddr)
    requires client in s.sessions
  {
    var id := s.sessions[client];
    && id in s.heap
    && s.heap[id].client == client
    && id in s.replying
    && DrainsPending(s, s.heap[id].generation)
    && (id in s.closed || id in s.doomed ==> s.heap[id].generation < s.generation)
  }

  ghost predicate TableHonest(cfg: Config, s: Listener) {
    && |s.sessions| <= cfg.maxSessions
    && forall client :: client in s.sessions ==> EntryHonest(s, client)
  }

  /** A session only the receive task knows about. */
  ghost predicate Private(s: Listener, r: Receiver)
    requires r.Created? || r.Inserting?
  {
    && r.id in s.heap
    && s.heap[r.id] == Session(r.generation, r.client, r.target)
    && r.id !in s.closed && r.id !in s.doomed && r.id !in s.replying
  }

  ghost predicate ReceiverHonest(cfg: Config, s: Listener) {
    var r := s.receiver;
    && (!r.Idle? && !r.Halted? ==> r.generation <= s.generation && Published(s, r.generation, Some(r.target)))
    && (r.Missed? || r.Created? || r.Inserting? ==> |s.sessions| < cfg.maxSessions)
    && (r.Created? || r.Inserting? ==> Private(s, r))
    && (r.Inserting? ==> DrainsPending(s, r.generation))
  }

  ghost predicate Inv(cfg: Config, s: Listener) {
    GenerationsAgree(s) && HeapHonest(s) && TableHonest(cfg, s) && ReceiverHonest(cfg, s)
    && s.closed + s.doomed + s.replying <= s.heap.Keys
  }

  lemma StartKeepsInv(cfg: Config, target: Option<Target>)
    ensures Inv(cfg, Start(target))
  {
  }

  /** The one step outside the model's promise: an update at the top of the counter. */
  predicate Saturates(cfg: Config, s: Listener, step: Step) {
    step.Publish? && s.entry.generation >= cfg.maxGeneration
  }

  lemma RemovalShrinks(m: map<SocketAddr, SessionId>, client: SocketAddr)
    requires client in m
    ensures |m - {client}| == |m| - 1
  {
    var m' := m - {client};
    assert m.Keys == m'.Keys + {client};
  }

  lemma InsertGrows(m: map<SocketAddr, SessionId>, client: SocketAddr, id: SessionId)
    ensures |m[client := id]| <= |m| + 1
  {
    var m' := m[client := id];
    assert m'.Keys == m.Keys + {client};
    if client in m { assert m'.Keys == m.Keys; }
  }

  lemma PublishKeepsInv(cfg: Config, s: Listener, target: Option<Target>)
    requires Inv(cfg, s) && s.writer.None? && s.entry.generation < cfg.maxGeneration
    ensures Inv(cfg, Apply(cfg, s, Publish(target)))
  {
    var s' := Apply(cfg, s, Publish(target));
    assert s'.generation == s.generation + 1;
    assert forall g: nat :: DrainsPending(s, g) ==> DrainsPending(s', g);
  }

  lemma DrainKeepsInv(cfg: Config, s: Listener, g: nat)
    requires Inv(cfg, s) && Enabled(cfg, s, Drain(g))
    ensures Inv(cfg, Apply(cfg, s, Drain(g)))
  {
    PrivateUnmapped(cfg, s);
  }

  lemma PrivateUnmapped(cfg: Config, s: Listener)
    requires Inv(cfg, s)
    ensures s.receiver.Created? || s.receiver.Inserting? ==> s.receiver.id !in s.sessions.Values
  {
  }

  lemma CloseKeepsInv(cfg: Config, s: Listener, id: SessionId)
    requires Inv(cfg, s) && Enabled(cfg, s, Close(id))
    ensures Inv(cfg, Apply(cfg, s, Close(id)))
  {
    var s' := Apply(cfg, s, Close(id));
    forall client | client in s'.sessions ensures EntryHonest(s', client) {
      assert EntryHonest(s, client);
    }
  }

  lemma ReplyStaleKeepsInv(cfg: Config, s: Listener, id: SessionId)
    requires Inv(cfg, s) && Enabled(cfg, s, ReplyStale(id))
    ensures Inv(cfg, Apply(cfg, s, ReplyStale(id)))
  {
    var s' := Apply(cfg, s, ReplyStale(id));
    forall client | client in s'.sessions ensures EntryHonest(s', client) {
      assert EntryHonest(s, client) && SessionHonest(s, s.heap[s.sessions[client]]);
    }
  }

  lemma RemoveKeepsInv(cfg: Config, s: Listener, client: SocketAddr, id: SessionId)
    requires Inv(cfg, s) && MutexFree(s)
    ensures Inv(cfg, Apply(cfg, s, RemoveIfSame(client, id)))
  {
    if client in s.sessions && s.sessions[client] == id {
      var s' := Apply(cfg, s, RemoveIfSame(client, id));
      RemovalShrinks(s.sessions, client);
      assert EntryHonest(s, client);
      forall other | other in s'.sessions ensures EntryHonest(s', other) {
        assert EntryHonest(s, other);
      }
    }
  }

  lemma CreateKeepsInv(cfg: Config, s: Listener, id: SessionId)
    requires Inv(cfg, s) && Enabled(cfg, s, Create(id))
    ensures Inv(cfg, Apply(cfg, s, Create(id)))
  {
    var s' := Apply(cfg, s, Create(id));
    forall client | client in s'.sessions ensures EntryHonest(s', client) {
      assert EntryHonest(s, client);
    }
  }

  lemma InsertKeepsTable(cfg: Config, s: Listener)
    requires Inv(cfg, s) && Enabled(cfg, s, Insert)
    ensures TableHonest(cfg, Apply(cfg, s, Insert))
  {
    var s' := Apply(cfg, s, Insert);
    InsertGrows(s.sessions, s.receiver.client, s.receiver.id);
    forall client | client in s'.sessions ensures EntryHonest(s', client) {
      if client != s.receiver.client { OtherEntryKept(cfg, s, client); } else { NewEntryHonest(cfg, s); }
    }
  }

  /** The inserted session is private until now: nobody can have closed it. */
  lemma NewEntryHonest(cfg: Config, s: Listener)
    requires Inv(cfg, s) && Enabled(cfg, s, Insert)
    ensures EntryHonest(Apply(cfg, s, Insert), s.receiver.client)
  {
    assert Private(s, s.receiver);
    PrivateUnmapped(cfg, s);
  }

  /** Only the displaced session is doomed by an insert, and it is mapped no longer. */
  lemma OtherEntryKept(cfg: Config, s: Listener, client: SocketAddr)
    requires Inv(cfg, s) && Enabled(cfg, s, Insert) && client in s.sessions && client != s.receiver.client
    ensures EntryHonest(Apply(cfg, s, Insert), client)
  {
    assert EntryHonest(s, client);
    if s.receiver.client in s.sessions { assert EntryHonest(s, s.receiver.client); }
  }

  lemma InsertKeepsRest(cfg: Config, s: Listener)
    requires Inv(cfg, s) && Enabled(cfg, s, Insert)
    ensures var s' := Apply(cfg, s, Insert);
            GenerationsAgree(s') && HeapHonest(s') && ReceiverHonest(cfg, s')
  {
    var s' := Apply(cfg, s, Insert);
    assert Published(s, s.receiver.generation, Some(s.receiver.target));
    forall id | id in s'.heap ensures SessionHonest(s', s'.heap[id]) { assert SessionHonest(s, s.heap[id]); }
  }

  /** The displaced and the inserted session are both known. */
  lemma InsertKeepsFlags(cfg: Config, s: Listener)
    requires Inv(cfg, s) && Enabled(cfg, s, Insert)
    ensures var s' := Apply(cfg, s, Insert);
            s'.closed + s'.doomed + s'.replying <= s'.heap.Keys
  {
    assert Private(s, s.receiver);
    if s.receiver.client in s.sessions { assert EntryHonest(s, s.receiver.client); }
  }

  lemma InsertKeepsInv(cfg: Config, s: Listener)
    requires Inv(cfg, s) && Enabled(cfg, s, Insert)
    ensures Inv(cfg, Apply(cfg, s, Insert))
  {
    InsertKeepsTable(cfg, s);
    InsertKeepsRest(cfg, s);
    InsertKeepsFlags(cfg, s);
  }

  lemma MarkStaleKeepsInv(cfg: Config, s: Listener, id: SessionId)
    requires Inv(cfg, s) && Enabled(cfg, s, MarkStale(id))
    ensures Inv(cfg, Apply(cfg, s, MarkStale(id)))
  {
    var s' := Apply(cfg, s, MarkStale(id));
    forall client | client in s'.sessions ensures EntryHonest(s', client) {
      assert EntryHonest(s, client);
    }
  }

  lemma StopDrainKeepsInv(cfg: Config, s: Listener)
    requires Inv(cfg, s) && Enabled(cfg, s, StopDrain)
    ensures Inv(cfg, Apply(cfg, s, StopDrain))
  {
  }

  /** Moving the receive task alone keeps what is said of sessions and the table. */
  lemma MoveReceiver(cfg: Config, s: Listener, r: Receiver)
    requires Inv(cfg, s)
    ensures GenerationsAgree(s.(receiver := r)) && HeapHonest(s.(receiver := r)) && TableHonest(cfg, s.(receiver := r))
  {
    var s' := s.(receiver := r);
    forall client | client in s'.sessions ensures EntryHonest(s', client) {
      assert EntryHonest(s, client);
    }
    forall id | id in s'.heap ensures SessionHonest(s', s'.heap[id]) { assert SessionHonest(s, s.heap[id]); }
  }

  /** Steps that change nothing but where the receive task stands. */
  lemma LocalStepKeepsInv(cfg: Config, s: Listener, step: Step)
    requires Inv(cfg, s) && Enabled(cfg, s, step)
    requires step.AbortReceiver? || step.ReplyPass? || step.TakeSnapshot? || step.Lookup?
             || step.CreateFails? || step.Recheck? || step.FinishBatch?
    ensures Inv(cfg, Apply(cfg, s, step))
  {
    var r := Apply(cfg, s, step).receiver;
    assert Apply(cfg, s, step) == s.(receiver := r);
    MoveReceiver(cfg, s, r);
  }

  lemma CommitKeepsInv(cfg: Config, s: Listener)
    requires Inv(cfg, s) && Enabled(cfg, s, Commit)
    ensures Inv(cfg, Apply(cfg, s, Commit))
  {
    var s' := Apply(cfg, s, Commit);
    forall client | client in s'.sessions ensures EntryHonest(s', client) {
      assert EntryHonest(s, client);
    }
    forall id | id in s'.heap ensures SessionHonest(s', s'.heap[id]) { assert SessionHonest(s, s.heap[id]); }
  }

  lemma StepKeepsInv(cfg: Config, s: Listener, step: Step)
    requires Inv(cfg, s) && Enabled(cfg, s, step) && !Saturates(cfg, s, step)
    ensures Inv(cfg, Apply(cfg, s, step))
  {
    match step
    case Publish(target) => PublishKeepsInv(cfg, s, target);
    case Drain(g) => DrainKeepsInv(cfg, s, g);
    case Close(id) => CloseKeepsInv(cfg, s, id);
    case ReplyStale(id) => ReplyStaleKeepsInv(cfg, s, id);
    case RemoveIfSame(client, id) => RemoveKeepsInv(cfg, s, client, id);
    case Create(id) => CreateKeepsInv(cfg, s, id);
    case Insert => InsertKeepsInv(cfg, s);
    case MarkStale(id) => MarkStaleKeepsInv(cfg, s, id);
    case Commit => CommitKeepsInv(cfg, s);
    case StopDrain => StopDrainKeepsInv(cfg, s);
    case _ => LocalStepKeepsInv(cfg, s, step);
  }
}
