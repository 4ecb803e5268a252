/**
 The receive task of a UDP listener: its loops, run against the interleaving model.

 Every access to shared state is a step of UdpSessions, and between any two of them
 the other tasks take an arbitrary number of arbitrary steps.
 */
module UdpReceiver {
  import opened Model
  import opened UdpSessions
  import opened UdpSending
  import opened UdpGrouping

  /** A datagram handed to the upstream socket of a session. */
  datatype Forwarded = Forwarded(session: SessionId, index: nat, payload: seq<Byte>)

  /** The steps of the tasks other than the receive task. */
  predicate FromOthers(cfg: Config, s: Listener, step: Step) {
    && (step.Publish? || step.Commit? || step.Drain? || step.Close? || step.ReplyPass? || step.ReplyStale?
        || step.RemoveIfSame?)
    && Enabled(cfg, s, step)
    && !Saturates(cfg, s, step)
  }

  /** What the other tasks can do to the state the receive task relies on. */
  ghost predicate Rely(s: Listener, s': Listener) {
    && s'.heap == s.heap
    && s'.receiver == s.receiver
    && s'.generation >= s.generation
    && s'.entry.generation >= s.entry.generation
    && s.closed <= s'.closed
    && (forall client :: client in s'.sessions ==> client in s.sessions && s'.sessions[client] == s.sessions[client])
  }

  lemma OthersRespectRely(cfg: Config, s: Listener, step: Step)
    requires GenerationsAgree(s) && FromOthers(cfg, s, step)
    ensures Rely(s, Apply(cfg, s, step))
  {
  }

  /** A session that is out of the table and can never be found there again. */
  ghost predicate Retired(s: Listener, id: SessionId) {
    && id in s.heap
    && !Mapped(s, id)
    && !((s.receiver.Created? || s.receiver.Inserting?) && s.receiver.id == id)
  }

  /** Nothing leaves the heap and no retired session comes back. */
  ghost predicate Onward(s: Listener, s': Listener) {
    && (forall id :: id in s.heap ==> id in s'.heap && s'.heap[id] == s.heap[id])
    && (forall id :: Retired(s, id) ==> Retired(s', id))
  }

  lemma RelyIsOnward(s: Listener, s': Listener)
    requires Rely(s, s')
    ensures Onward(s, s')
  {
  }

  /** The receive task's steps, and the commit it waits for. */
  predicate OwnStep(step: Step) {
    step.TakeSnapshot? || step.Lookup? || step.CreateFails? || step.Create? || step.Recheck? || step.Insert?
    || step.MarkStale? || step.FinishBatch? || step.Commit?
  }

  /** The receive task's own steps retire sessions but never revive one. */
  lemma OwnStepIsOnward(cfg: Config, s: Listener, step: Step)
    requires Enabled(cfg, s, step) && OwnStep(step)
    ensures Onward(s, Apply(cfg, s, step))
  {
    var s' := Apply(cfg, s, step);
    forall id | Retired(s, id) ensures Retired(s', id) {
      if step.Insert? {
        assert id != s.receiver.id;
      } else {
        assert s'.sessions == s.sessions;
      }
    }
  }

  /** This is the client's session, and every other session of the client is retired. */
  ghost predicate Sole(s: Listener, client: SocketAddr, id: SessionId) {
    && id in s.heap && s.heap[id].client == client
    && forall other :: other in s.heap && s.heap[other].client == client && other != id ==> Retired(s, other)
  }

  lemma MappedIsSole(cfg: Config, s: Listener, client: SocketAddr)
    requires Inv(cfg, s) && s.receiver.Ready? && client in s.sessions
    ensures Sole(s, client, s.sessions[client]) && !Retired(s, s.sessions[client])
  {
    assert EntryHonest(s, client);
  }

  ghost predicate SameClient(peers: seq<SocketAddr>, i: nat, j: nat)
    requires i < |peers| && j < |peers|
  {
    peers[i] == peers[j]
  }

  /** Every prepared session belongs to the peer of its datagram and has this generation. */
  ghost predicate Belong(heap: map<SessionId, Session>, generation: nat, peers: seq<SocketAddr>,
                         s: seq<Option<SessionId>>) {
    forall i: nat :: i < |s| && s[i].Some? ==>
      i < |peers| && s[i].value in heap && heap[s[i].value].client == peers[i]
      && heap[s[i].value].generation == generation
  }

  /** A client never comes back to a session after using another one. */
  ghost predicate NoReturn(peers: seq<SocketAddr>, s: seq<Option<SessionId>>) {
    forall i: nat, j: nat, k: nat
      | i < j < k < |peers| && k < |s| && SameClient(peers, i, j) && SameClient(peers, j, k)
        && s[i].Some? && s[i] == s[k] && s[j].Some?
      :: s[j] == s[i]
  }

  /** A session a client has moved on from is retired. */
  ghost predicate LeftBehind(l: Listener, peers: seq<SocketAddr>, s: seq<Option<SessionId>>) {
    forall i: nat, j: nat
      | i < j < |peers| && j < |s| && SameClient(peers, i, j) && s[i].Some? && s[j].Some? && s[i] != s[j]
      :: Retired(l, s[i].value)
  }

  ghost predicate IsFirst(peers: seq<SocketAddr>, f: nat)
    requires f < |peers|
  {
    forall i: nat :: i < f ==> !SameClient(peers, i, f)
  }

  /** When the client's first datagram found a session, all its later ones use that one. */
  ghost predicate FirstWins(peers: seq<SocketAddr>, s: seq<Option<SessionId>>, index: nat) {
    forall f: nat, j: nat
      | f < j < index <= |peers| && index <= |s| && SameClient(peers, f, j) && IsFirst(peers, f) && s[f].Some?
      :: s[j] == s[f]
  }

  /** For each client, forwarded datagrams appear in receive order (so none appears twice). */
  ghost predicate PerClientOrder(peers: seq<SocketAddr>, log: seq<Forwarded>) {
    forall a: nat, b: nat
      | a < b < |log| && log[a].index < |peers| && log[b].index < |peers|
        && SameClient(peers, log[a].index, log[b].index)
      :: log[a].index < log[b].index
  }

  /** Each entry is a whole datagram of this batch, on the session prepared for it. */
  ghost predicate Faithful(s: seq<Option<SessionId>>, datagrams: seq<seq<Byte>>, log: seq<Forwarded>) {
    forall a: nat :: a < |log| ==>
      log[a].index < |s| && s[log[a].index] == Some(log[a].session)
      && log[a].index < |datagrams| && log[a].payload == datagrams[log[a].index]
  }

  /** The kernel takes every message of every call. */
  ghost predicate TakesAll(kernel: (nat, nat) -> int) {
    forall call: nat, n: nat :: kernel(call, n) >= n
  }

  /** The same, for the kernel's answers to every group. */
  ghost predicate AlwaysTakesAll(kernel: (nat, nat, nat) -> int) {
    forall first: nat, call: nat, n: nat :: kernel(first, call, n) >= n
  }

  /** The kernel's answers to the group that starts at `first`. */
  function ForGroup(kernel: (nat, nat, nat) -> int, first: nat): (r: (nat, nat) -> int)
    ensures AlwaysTakesAll(kernel) ==> TakesAll(r)
  {
    (call: nat, messages: nat) => kernel(first, call, messages)
  }

  /**
   Each datagram went out whole, on a session of its own client that is at least this recent and
   connected to the target published with its generation, which in the state seen was the published
   one, the session being open.
   */
  ghost predicate Delivered(l: Listener, peers: seq<SocketAddr>, datagrams: seq<seq<Byte>>, log: seq<Forwarded>,
                            generation: nat, seen: Listener) {
    forall a: nat :: a < |log| ==>
      && log[a].index < |peers| && log[a].index < |datagrams| && log[a].payload == datagrams[log[a].index]
      && log[a].session in l.heap
      && l.heap[log[a].session].client == peers[log[a].index]
      && generation <= l.heap[log[a].session].generation == seen.generation
      && log[a].session !in seen.closed
      && SessionHonest(l, l.heap[log[a].session])
  }

  lemma DeliveredAll(cfg: Config, l: Listener, peers: seq<SocketAddr>, datagrams: seq<seq<Byte>>,
                     s: seq<Option<SessionId>>, log: seq<Forwarded>, generation: nat, seen: Listener)
    requires Inv(cfg, l) && |datagrams| == |peers| <= |s| && seen.heap == l.heap && Checked(seen, s)
    requires Belong(l.heap, generation, peers, s) && Faithful(s[..|peers|], datagrams, log)
    ensures Delivered(l, peers, datagrams, log, generation, seen)
  {
  }

  /** What a session's socket took, paired with the positions it was asked to send. */
  function Entries(id: SessionId, indexes: seq<nat>, wire: seq<seq<Byte>>): (r: seq<Forwarded>)
    requires |wire| == |indexes|
    ensures |r| == |indexes|
    ensures forall a :: 0 <= a < |r| ==> r[a] == Forwarded(id, indexes[a], wire[a])
  {
    seq(|indexes|, a requires 0 <= a < |indexes| => Forwarded(id, indexes[a], wire[a]))
  }

  /** A datagram of an earlier group precedes the same client's datagrams in the group at `first`. */
  lemma EarlierGroupFirst(heap: map<SessionId, Session>, generation: nat, peers: seq<SocketAddr>,
                          s: seq<Option<SessionId>>, first: nat, i: nat, k: nat)
    requires |s| == |peers| && Belong(heap, generation, peers, s) && NoReturn(peers, s)
    requires first < |s| && s[first].Some? && !Handled(s, first, first)
    requires i < |s| && Handled(s, i, first)
    requires first <= k < |s| && s[k] == s[first] && SameClient(peers, i, k)
    ensures i < k
  {
    var j: nat :| j < first && j < |s| && s[j] == s[i];
    // j carries the earlier session and k the new one; were i after k, the client would have returned
    assert SameClient(peers, j, k) && SameClient(peers, k, i) && s[j] != s[first];
  }

  /** Appending a prefix of the group at `first` keeps every client's order. */
  lemma AppendGroup(heap: map<SessionId, Session>, generation: nat, peers: seq<SocketAddr>, s: seq<Option<SessionId>>,
                    datagrams: seq<seq<Byte>>, log: seq<Forwarded>, first: nat, indexes: seq<nat>)
    requires |s| == |peers| == |datagrams| && Belong(heap, generation, peers, s) && NoReturn(peers, s)
    requires first < |s| && s[first].Some? && !Handled(s, first, first)
    requires Handed(s, peers, datagrams, log, first)
    requires indexes <= IndexesOf(s, s[first].value, first, |s|) && ValidIndexes(datagrams, indexes)
    ensures Handed(s, peers, datagrams, log + Entries(s[first].value, indexes, Payloads(datagrams, indexes)), first + 1)
  {
    var id := s[first].value;
    var more := Entries(id, indexes, Payloads(datagrams, indexes));
    var log' := log + more;
    GroupMembers(s, id, first, indexes);
    Skip(s, peers, datagrams, log, first);
    forall a: nat | a < |more| ensures Handled(s, more[a].index, first + 1) {
      assert s[first] == s[more[a].index];
    }
    forall a: nat, b: nat | a < b < |log'| && SameClient(peers, log'[a].index, log'[b].index)
      ensures log'[a].index < log'[b].index
    {
      if a < |log| <= b {
        EarlierGroupFirst(heap, generation, peers, s, first, log[a].index, log'[b].index);
      }
    }
  }

  lemma ExtendLog(heap: map<SessionId, Session>, generation: nat, peers: seq<SocketAddr>, s: seq<Option<SessionId>>,
                  datagrams: seq<seq<Byte>>, base: seq<Forwarded>, log: seq<Forwarded>, first: nat, indexes: seq<nat>)
    returns (log': seq<Forwarded>)
    requires |s| == |peers| == |datagrams| && Belong(heap, generation, peers, s) && NoReturn(peers, s)
    requires first < |s| && s[first].Some? && !Handled(s, first, first)
    requires Handed(s, peers, datagrams, log, first)
    requires indexes <= IndexesOf(s, s[first].value, first, |s|) && ValidIndexes(datagrams, indexes)
    ensures Handed(s, peers, datagrams, log', first + 1) && |log'| == |log| + |indexes|
    ensures base + log' == base + log + Entries(s[first].value, indexes, Payloads(datagrams, indexes))
  {
    var more := Entries(s[first].value, indexes, Payloads(datagrams, indexes));
    log' := log + more;
    AppendGroup(heap, generation, peers, s, datagrams, log, first, indexes);
    assert base + (log + more) == base + log + more;
  }

  /** The first `index` datagrams have been looked up. */
  ghost predicate Assigned(l: Listener, generation: nat, peers: seq<SocketAddr>, s: seq<Option<SessionId>>,
                           index: nat) {
    && index <= |peers| <= |s|
    && (forall i: nat :: index <= i < |s| ==> s[i].None?)
    && Belong(l.heap, generation, peers, s)
    && NoReturn(peers, s)
    && LeftBehind(l, peers, s)
    && FirstWins(peers, s, index)
  }

  lemma OnlyFirst(peers: seq<SocketAddr>, f: nat, index: nat)
    requires f <= index < |peers| && SameClient(peers, f, index) && IsFirst(peers, f)
    ensures forall i: nat :: i < |peers| && SameClient(peers, i, index) && IsFirst(peers, i) ==> i == f
  {
    forall i: nat | i < |peers| && SameClient(peers, i, index) && IsFirst(peers, i) ensures i == f {
      assert SameClient(peers, i, f) && SameClient(peers, f, i);
    }
  }

  lemma HeldAfter(s: seq<Option<SessionId>>, index: nat, r: Option<SessionId>)
    requires index < |s| && s[index].None?
    ensures |Held(s[index := r])| == |Held(s)| + if r.Some? then 1 else 0
  {
    assert Held(s[index := r]) == Held(s) + if r.Some? then {index} else {};
  }

  /** The datagram at `index` reuses the session of its client's first datagram. */
  lemma ReuseFirst(l: Listener, generation: nat, peers: seq<SocketAddr>, s: seq<Option<SessionId>>, index: nat, f: nat)
    requires f < index < |peers| <= |s| && SameClient(peers, f, index) && IsFirst(peers, f) && s[f].Some?
    requires forall i: nat :: index <= i < |s| ==> s[i].None?
    requires Belong(l.heap, generation, peers, s) && NoReturn(peers, s) && LeftBehind(l, peers, s)
    requires FirstWins(peers, s, index)
    ensures Belong(l.heap, generation, peers, s[index := s[f]]) && NoReturn(peers, s[index := s[f]])
    ensures LeftBehind(l, peers, s[index := s[f]]) && FirstWins(peers, s[index := s[f]], index + 1)
  {
    forall i: nat | i < index && SameClient(peers, i, index) && s[i].Some? ensures s[i] == s[f] {
      assert SameClient(peers, i, f);
      if f < i { assert SameClient(peers, f, i); }
    }
    var s' := s[index := s[f]];
    forall i: nat, j: nat, k: nat
      | i < j < k < |peers| && k < |s'| && SameClient(peers, i, j) && SameClient(peers, j, k)
        && s'[i].Some? && s'[i] == s'[k] && s'[j].Some?
      ensures s'[j] == s'[i]
    {
      if k == index { assert SameClient(peers, i, index) && SameClient(peers, j, index); }
    }
    assert LeftBehind(l, peers, s');
    forall g: nat, j: nat
      | g < j < index + 1 && SameClient(peers, g, j) && IsFirst(peers, g) && s'[g].Some?
      ensures s'[j] == s'[g]
    {
      if j == index { assert SameClient(peers, g, index); }
    }
  }

  /** The datagram at `index` went through SessionFor, which took the listener from l0 to l. */
  lemma UseLookup(l0: Listener, l: Listener, generation: nat, peers: seq<SocketAddr>, s: seq<Option<SessionId>>,
                  index: nat, r: Option<SessionId>)
    requires index < |peers| <= |s| && Onward(l0, l)
    requires forall f: nat :: f < index && SameClient(peers, f, index) && IsFirst(peers, f) ==> s[f].None?
    requires forall i: nat :: index <= i < |s| ==> s[i].None?
    requires Belong(l0.heap, generation, peers, s) && NoReturn(peers, s) && LeftBehind(l0, peers, s)
    requires FirstWins(peers, s, index)
    requires r.Some? ==> Sole(l, peers[index], r.value) && !Retired(l0, r.value)
                         && l.heap[r.value].generation == generation
    ensures Belong(l.heap, generation, peers, s[index := r]) && NoReturn(peers, s[index := r])
    ensures LeftBehind(l, peers, s[index := r]) && FirstWins(peers, s[index := r], index + 1)
  {
    var s' := s[index := r];
    forall i: nat, j: nat, k: nat
      | i < j < k < |peers| && k < |s'| && SameClient(peers, i, j) && SameClient(peers, j, k)
        && s'[i].Some? && s'[i] == s'[k] && s'[j].Some?
      ensures s'[j] == s'[i]
    {
    }
    forall i: nat, j: nat
      | i < j < |peers| && j < |s'| && SameClient(peers, i, j) && s'[i].Some? && s'[j].Some? && s'[i] != s'[j]
      ensures Retired(l, s'[i].value)
    {
      if j < index { assert Retired(l0, s[i].value); }
    }
  }

  /** Dropping sessions from a prepared batch keeps its shape. */
  lemma Forget(heap: map<SessionId, Session>, generation: nat, peers: seq<SocketAddr>, s: seq<Option<SessionId>>,
               index: nat)
    requires Belong(heap, generation, peers, s) && NoReturn(peers, s) && index < |s| && s[index].Some?
    ensures Belong(heap, generation, peers, s[index := None]) && NoReturn(peers, s[index := None])
    ensures |Held(s[index := None])| == |Held(s)| - 1
  {
    assert Held(s) == Held(s[index := None]) + {index};
  }

  /** What has been handed over before the group loop reaches `first`. */
  ghost predicate Handed(s: seq<Option<SessionId>>, peers: seq<SocketAddr>, datagrams: seq<seq<Byte>>,
                         log: seq<Forwarded>, first: nat) {
    && Faithful(s, datagrams, log)
    && PerClientOrder(peers, log)
    && forall a: nat :: a < |log| ==> Handled(s, log[a].index, first)
  }

  /** At the start no flag is set and nothing has been handed over. */
  lemma NothingHanded(s: seq<Option<SessionId>>, grouped: seq<bool>, peers: seq<SocketAddr>, datagrams: seq<seq<Byte>>)
    requires |s| <= |grouped| && forall i :: 0 <= i < |grouped| ==> !grouped[i]
    ensures Marked(s, grouped, 0) && Handed(s, peers, datagrams, [], 0) && |HandledSet(s, 0)| == 0
  {
    assert HandledSet(s, 0) == {};
  }

  lemma Skip(s: seq<Option<SessionId>>, peers: seq<SocketAddr>, datagrams: seq<seq<Byte>>,
             log: seq<Forwarded>, first: nat)
    requires Handed(s, peers, datagrams, log, first)
    ensures Handed(s, peers, datagrams, log, first + 1)
  {
    forall a: nat | a < |log| ensures Handled(s, log[a].index, first + 1) {
      assert Handled(s, log[a].index, first);
    }
  }

  // ------------------------------------------------------- the check before sending

  /** None of the first `end` prepared sessions is among these closed ones. */
  ghost predicate OpenIn(closed: set<SessionId>, s: seq<Option<SessionId>>, end: nat) {
    end <= |s| && forall i: nat :: i < end && s[i].Some? ==> s[i].value !in closed
  }

  /** Every session is still the one prepared, or a datagram was parted from it and it is closed. */
  ghost predicate GivenUpClosed(closed: set<SessionId>, before: seq<Option<SessionId>>, s: seq<Option<SessionId>>) {
    && |before| == |s|
    && forall i: nat :: i < |s| ==>
         s[i] == before[i] || (s[i].None? && before[i].Some? && before[i].value in closed)
  }

  lemma OpenStep(closed: set<SessionId>, s: seq<Option<SessionId>>, s': seq<Option<SessionId>>, i: nat)
    requires OpenIn(closed, s, i) && i < |s| == |s'| && s' == s[i := s'[i]]
    requires s'[i].Some? ==> s'[i].value !in closed
    ensures OpenIn(closed, s', i + 1)
  {
  }

  lemma GivenUpStep(closed: set<SessionId>, closed': set<SessionId>, before: seq<Option<SessionId>>,
                    s: seq<Option<SessionId>>, s': seq<Option<SessionId>>, i: nat)
    requires GivenUpClosed(closed, before, s) && closed <= closed' && i < |s| == |s'| && s' == s[i := s'[i]]
    requires s'[i] == s[i] || (s'[i].None? && s[i].Some? && s[i].value in closed')
    ensures GivenUpClosed(closed', before, s')
  {
  }

  /** In this state every prepared session was open and of the published generation. */
  ghost predicate Checked(seen: Listener, s: seq<Option<SessionId>>) {
    forall i: nat :: i < |s| && s[i].Some? ==>
      s[i].value in seen.heap && seen.heap[s[i].value].generation == seen.generation && s[i].value !in seen.closed
  }

  lemma NoneChecked(seen: Listener, s: seq<Option<SessionId>>)
    requires Held(s) == {}
    ensures Checked(seen, s)
  {
    forall i: nat | i < |s| ensures s[i].None? { assert i in Held(s) <==> s[i].Some?; }
  }

  lemma OpenChecked(seen: Listener, peers: seq<SocketAddr>, s: seq<Option<SessionId>>)
    requires Belong(seen.heap, seen.generation, peers, s) && OpenIn(seen.closed, s, |s|)
    ensures Checked(seen, s)
  {
  }

  /** This state came before the other, after every session of the other had been created. */
  ghost predicate Between(seen: Listener, l: Listener) {
    seen.heap == l.heap && seen.generation <= l.generation && seen.closed <= l.closed
  }

  // ------------------------------------------------ when nothing gets in the way

  /** The receive task works with the published generation. */
  ghost predicate UpToDate(l: Listener) {
    !l.receiver.Idle? && !l.receiver.Halted? && l.generation == l.receiver.generation
  }

  /** What a reader of the entry state will find: a writer that has published commits first. */
  ghost predicate Serving(l: Listener) {
    if l.writer.Some? then l.writer.value.target.Some? else l.entry.target.Some?
  }

  /** Sessions that could answer their client still can, and at most one was added. */
  ghost predicate Steady(l: Listener, l': Listener) {
    && l'.generation == l.generation
    && |l'.sessions| <= |l.sessions| + 1
    && forall id :: PassesReplyCheck(l, id) ==> PassesReplyCheck(l', id)
  }

  /** The first `index` datagrams all have a session that can answer. */
  ghost predicate AllLive(l: Listener, s: seq<Option<SessionId>>, index: nat) {
    index <= |s| && forall i: nat :: i < index ==> s[i].Some? && PassesReplyCheck(l, s[i].value)
  }

  /** Inserting for a client without a current session displaces no session that could answer. */
  lemma InsertIsSteady(cfg: Config, l: Listener)
    requires Inv(cfg, l) && l.receiver.Inserting? && UpToDate(l) && !Hit(l, l.receiver.client, l.generation)
    ensures Steady(l, Apply(cfg, l, Insert)) && PassesReplyCheck(Apply(cfg, l, Insert), l.receiver.id)
  {
    InsertGrows(l.sessions, l.receiver.client, l.receiver.id);
  }

  /** A step that leaves the table and the counter alone leaves every answer possible. */
  lemma SameTableIsSteady(l: Listener, l': Listener)
    requires Onward(l, l') && l'.sessions == l.sessions && l'.generation == l.generation
    ensures Steady(l, l')
  {
  }

  /** A session that can answer has not been closed. */
  lemma LiveIsOpen(cfg: Config, l: Listener, id: SessionId)
    requires Inv(cfg, l) && PassesReplyCheck(l, id)
    ensures id !in l.closed
  {
    assert EntryHonest(l, l.heap[id].client);
  }

  lemma NoneHeld(s: seq<Option<SessionId>>)
    requires forall i :: 0 <= i < |s| ==> s[i].None?
    ensures Held(s) == {} && |Held(s)| == 0
  {
  }

  /** Only the received datagrams of a batch have sessions. */
  lemma PrefixShape(heap: map<SessionId, Session>, generation: nat, peers: seq<SocketAddr>, s: seq<Option<SessionId>>)
    requires |peers| <= |s| && Belong(heap, generation, peers, s) && NoReturn(peers, s)
    ensures Belong(heap, generation, peers, s[..|peers|]) && NoReturn(peers, s[..|peers|])
    ensures Held(s[..|peers|]) == Held(s)
  {
  }

  class ReceiveTask {
    const cfg: Config
    const others: nat -> seq<Step>   // what the other tasks try to do, at each point where they can run
    const connects: nat -> bool      // whether an upstream socket can be bound and connected then
    var clock: nat                   // the points passed so far
    var listener: Listener
    var dropTotal: nat       // udp_drop_total
    var staleTotal: nat      // udp_reply_stale_total
    var rejectedTotal: nat   // rejected_no_host_total
    var forwarded: seq<Forwarded>

    ghost predicate Valid()
      reads this
    {
      Inv(cfg, listener)
    }

    /** No other task runs and every upstream socket connects. */
    ghost predicate Calm() {
      forall n: nat :: others(n) == [] && connects(n)
    }

    constructor (cfg: Config, target: Option<Target>, others: nat -> seq<Step>, connects: nat -> bool)
      ensures Valid() && this.cfg == cfg && this.others == others && this.connects == connects
      ensures listener == Start(target) && clock == 0
      ensures dropTotal == staleTotal == rejectedTotal == 0 && forwarded == []
    {
      this.cfg, this.others, this.connects := cfg, others, connects;
      listener, clock := Start(target), 0;
      dropTotal, staleTotal, rejectedTotal, forwarded := 0, 0, 0, [];
      StartKeepsInv(cfg, target);
    }

    /** The other tasks run for a while. */
    method Interfere()
      requires Valid()
      modifies this`listener, this`clock
      ensures Valid() && Rely(old(listener), listener) && Onward(old(listener), listener)
      ensures Calm() ==> listener == old(listener)
    {
      var steps := others(clock);
      clock := clock + 1;
      for i := 0 to |steps|
        invariant Valid() && Rely(old(listener), listener)
        invariant steps == [] ==> listener == old(listener)
      {
        if FromOthers(cfg, listener, steps[i]) {
          OthersRespectRely(cfg, listener, steps[i]);
          StepKeepsInv(cfg, listener, steps[i]);
          listener := Apply(cfg, listener, steps[i]);
        }
      }
      RelyIsOnward(old(listener), listener);
    }

    /** One atomic step of the receive task itself. */
    method Perform(step: Step)
      requires Valid() && Enabled(cfg, listener, step) && OwnStep(step)
      modifies this`listener
      ensures Valid() && listener == old(Apply(cfg, listener, step)) && Onward(old(listener), listener)
    {
      StepKeepsInv(cfg, listener, step);
      OwnStepIsOnward(cfg, listener, step);
      listener := Apply(cfg, listener, step);
    }

    /**
     Find or create the session of a client.  A datagram that gets none is counted once; one that
     gets a session gets the client's own, and every other session of that client is then retired.
     */
    method SessionFor(client: SocketAddr) returns (r: Option<SessionId>)
      requires Valid() && listener.receiver.Ready?
      modifies this`listener, this`clock, this`dropTotal, this`staleTotal
      ensures Valid() && listener.receiver == old(listener.receiver) && Onward(old(listener), listener)
      ensures r.None? ==> dropTotal + staleTotal == old(dropTotal + staleTotal) + 1
      ensures r.Some? ==> dropTotal == old(dropTotal) && staleTotal == old(staleTotal)
      ensures r.Some? ==> Sole(listener, client, r.value) && !Retired(old(listener), r.value)
      ensures r.Some? ==> listener.heap[r.value].generation == listener.receiver.generation
      ensures staleTotal != old(staleTotal) ==> listener.generation > listener.receiver.generation
      ensures Calm() && old(UpToDate(listener) && |listener.sessions| < cfg.maxSessions) ==>
                r.Some? && PassesReplyCheck(listener, r.value) && Steady(old(listener), listener)
      ensures Calm() && old(!Hit(listener, client, listener.receiver.generation)) ==>
                && (old(|listener.sessions| >= cfg.maxSessions) ==> dropTotal == old(dropTotal) + 1)
                && (old(!UpToDate(listener) && |listener.sessions| < cfg.maxSessions) ==>
                      staleTotal == old(staleTotal) + 1)
    {
      Interfere();
      r := FindOrCreate(client);
    }

    /** SessionFor from the point where it holds the mutex. */
    method FindOrCreate(client: SocketAddr) returns (r: Option<SessionId>)
      requires Valid() && listener.receiver.Ready?
      modifies this`listener, this`clock, this`dropTotal, this`staleTotal
      ensures Valid() && listener.receiver == old(listener.receiver) && Onward(old(listener), listener)
      ensures r.None? ==> dropTotal + staleTotal == old(dropTotal + staleTotal) + 1
      ensures r.Some? ==> dropTotal == old(dropTotal) && staleTotal == old(staleTotal)
      ensures r.Some? ==> Sole(listener, client, r.value) && !Retired(old(listener), r.value)
      ensures r.Some? ==> listener.heap[r.value].generation == listener.receiver.generation
      ensures staleTotal != old(staleTotal) ==> listener.generation > listener.receiver.generation
      ensures Calm() && old(UpToDate(listener) && |listener.sessions| < cfg.maxSessions) ==>
                r.Some? && PassesReplyCheck(listener, r.value) && Steady(old(listener), listener)
      ensures Calm() && old(!Hit(listener, client, listener.receiver.generation)) ==>
                && (old(|listener.sessions| >= cfg.maxSessions) ==> dropTotal == old(dropTotal) + 1)
                && (old(!UpToDate(listener) && |listener.sessions| < cfg.maxSessions) ==>
                      staleTotal == old(staleTotal) + 1)
    {
      var g := listener.receiver.generation;
      if Hit(listener, client, g) {
        MappedIsSole(cfg, listener, client);
        return Some(listener.sessions[client]);
      }
      if |listener.sessions| >= cfg.maxSessions {
        dropTotal := dropTotal + 1;
        return None;
      }
      Perform(Lookup(client));
      r := CreateSession(client);
    }

    /** SessionFor after a miss, outside the mutex: an upstream socket may fail to bind or connect. */
    method CreateSession(client: SocketAddr) returns (r: Option<SessionId>)
      requires Valid() && listener.receiver.Missed? && listener.receiver.client == client
      modifies this`listener, this`clock, this`dropTotal, this`staleTotal
      ensures Valid() && Onward(old(listener), listener)
      ensures listener.receiver == Ready(old(listener.receiver.generation), old(listener.receiver.target))
      ensures r.None? ==> dropTotal + staleTotal == old(dropTotal + staleTotal) + 1
      ensures r.Some? ==> dropTotal == old(dropTotal) && staleTotal == old(staleTotal)
      ensures r.Some? ==> Sole(listener, client, r.value) && !Retired(old(listener), r.value)
      ensures r.Some? ==> listener.heap[r.value].generation == listener.receiver.generation
      ensures staleTotal != old(staleTotal) ==> listener.generation > listener.receiver.generation
      ensures Calm() && old(!UpToDate(listener) && !Hit(listener, client, listener.receiver.generation)) ==>
              staleTotal == old(staleTotal) + 1
      ensures Calm() && old(UpToDate(listener)) ==>
              r.Some? && PassesReplyCheck(listener, r.value) && Steady(old(listener), listener)
    {
      Interfere();
      if !connects(clock) {
        Perform(CreateFails);
        dropTotal := dropTotal + 1;
        return None;
      }
      r := InsertNew(client);
    }

    /** The second half of SessionFor, after the upstream socket has been connected. */
    method InsertNew(client: SocketAddr) returns (r: Option<SessionId>)
      requires Valid() && listener.receiver.Missed? && listener.receiver.client == client
      modifies this`listener, this`clock, this`staleTotal
      ensures Valid() && Onward(old(listener), listener)
      ensures listener.receiver == Ready(old(listener.receiver.generation), old(listener.receiver.target))
      ensures staleTotal == old(staleTotal) + if r.None? then 1 else 0
      ensures r.None? ==> listener.generation > listener.receiver.generation
      ensures Calm() && old(!UpToDate(listener) && !Hit(listener, client, listener.receiver.generation)) ==> r.None?
      ensures r.Some? ==> Sole(listener, client, r.value) && !Retired(old(listener), r.value)
      ensures r.Some? ==> listener.heap[r.value].generation == listener.receiver.generation
      ensures Calm() && old(UpToDate(listener)) ==>
              r.Some? && PassesReplyCheck(listener, r.value) && Steady(old(listener), listener)
    {
      ghost var unused := FreshId(listener.heap);
      var id: SessionId :| id !in listener.heap;
      ghost var l := listener;
      Perform(Create(id));
      SameTableIsSteady(l, listener);
      Interfere();
      r := Admit(client);
    }

    /** Under the mutex again: another session may have come, or the generation may have moved on. */
    method Admit(client: SocketAddr) returns (r: Option<SessionId>)
      requires Valid() && listener.receiver.Created? && listener.receiver.client == client
      modifies this`listener, this`clock, this`staleTotal
      ensures Valid() && Onward(old(listener), listener)
      ensures listener.receiver == Ready(old(listener.receiver.generation), old(listener.receiver.target))
      ensures staleTotal == old(staleTotal) + if r.None? then 1 else 0
      ensures r.None? ==> listener.generation > listener.receiver.generation
      ensures Calm() && old(!UpToDate(listener) && !Hit(listener, client, listener.receiver.generation)) ==> r.None?
      ensures r.Some? ==> Sole(listener, client, r.value) && !Retired(old(listener), r.value)
      ensures r.Some? ==> listener.heap[r.value].generation == listener.receiver.generation
      ensures Calm() && old(UpToDate(listener)) ==>
              r.Some? && PassesReplyCheck(listener, r.value) && Steady(old(listener), listener)
    {
      var g := listener.receiver.generation;
      var found := Hit(listener, client, g);
      var current := listener.generation == g;
      Perform(Recheck);
      if found {
        MappedIsSole(cfg, listener, client);
        return Some(listener.sessions[client]);
      }
      if !current {
        staleTotal := staleTotal + 1;
        return None;
      }
      r := InsertChecked(client);
    }

    /** The mutex is held and the generation matched when it was loaded. */
    method InsertChecked(client: SocketAddr) returns (r: Option<SessionId>)
      requires Valid() && listener.receiver.Inserting? && listener.receiver.client == client
      modifies this`listener, this`clock
      ensures Valid() && Onward(old(listener), listener)
      ensures listener.receiver == Ready(old(listener.receiver.generation), old(listener.receiver.target))
      ensures r == Some(old(listener.receiver.id)) && Sole(listener, client, r.value)
      ensures listener.heap == old(listener.heap)
      ensures Calm() && old(UpToDate(listener) && !Hit(listener, client, listener.generation)) ==>
                PassesReplyCheck(listener, r.value) && Steady(old(listener), listener)
    {
      r := Some(listener.receiver.id);
      Interfere();  // an update may publish between the load above and the insert below
      if UpToDate(listener) && !Hit(listener, client, listener.generation) { InsertIsSteady(cfg, listener); }
      Perform(Insert);
      MappedIsSole(cfg, listener, client);
      Interfere();
    }

    /** The lookup `(0..index).find(..)`: the first datagram of the batch from the same peer. */
    method FirstFromPeer(peers: seq<SocketAddr>, index: nat) returns (f: nat)
      requires index < |peers|
      ensures f <= index && SameClient(peers, f, index) && IsFirst(peers, f)
    {
      f := 0;
      while peers[f] != peers[index]
        invariant f <= index
        invariant forall i: nat :: i < f ==> peers[i] != peers[index]
        decreases index - f
      {
        f := f + 1;
      }
    }

    /** Give the datagram at `index` a session or count it. */
    method AssignOne(peers: seq<SocketAddr>, sessions: array<Option<SessionId>>, index: nat)
      requires Valid() && listener.receiver.Ready? && index < |peers|
      requires Assigned(listener, listener.receiver.generation, peers, sessions[..], index)
      modifies this`listener, this`clock, this`dropTotal, this`staleTotal, sessions
      ensures Valid() && listener.receiver == old(listener.receiver)
      ensures Assigned(listener, listener.receiver.generation, peers, sessions[..], index + 1)
      ensures dropTotal + staleTotal + |Held(sessions[..])| == old(dropTotal + staleTotal + |Held(sessions[..])|) + 1
      ensures Calm() && old(UpToDate(listener) && |listener.sessions| < cfg.maxSessions
                            && AllLive(listener, sessions[..], index)) ==>
                Steady(old(listener), listener) && AllLive(listener, sessions[..], index + 1)
                && dropTotal + staleTotal == old(dropTotal + staleTotal)
    {
      var f := FirstFromPeer(peers, index);
      ghost var g := listener.receiver.generation;
      ghost var s := sessions[..];
      if sessions[f].Some? {
        sessions[index] := sessions[f];
        ReuseFirst(listener, g, peers, s, index, f);
        assert sessions[..] == s[index := s[f]];
      } else {
        OnlyFirst(peers, f, index);
        AssignByLookup(peers, sessions, index);
      }
      HeldAfter(s, index, sessions[index]);
    }

    /** No datagram of this batch has found a session for the client yet. */
    method AssignByLookup(peers: seq<SocketAddr>, sessions: array<Option<SessionId>>, index: nat)
      requires Valid() && listener.receiver.Ready? && index < |peers|
      requires Assigned(listener, listener.receiver.generation, peers, sessions[..], index)
      requires forall f: nat :: f < index && SameClient(peers, f, index) && IsFirst(peers, f) ==> sessions[f].None?
      modifies this`listener, this`clock, this`dropTotal, this`staleTotal, sessions
      ensures Valid() && listener.receiver == old(listener.receiver)
      ensures Assigned(listener, listener.receiver.generation, peers, sessions[..], index + 1)
      ensures sessions[..] == old(sessions[..])[index := sessions[index]]
      ensures dropTotal + staleTotal == old(dropTotal + staleTotal) + if sessions[index].Some? then 0 else 1
      ensures Calm() && old(UpToDate(listener) && |listener.sessions| < cfg.maxSessions
                            && AllLive(listener, sessions[..], index)) ==>
                Steady(old(listener), listener) && AllLive(listener, sessions[..], index + 1)
    {
      ghost var g, s, l := listener.receiver.generation, sessions[..], listener;
      var r := SessionFor(peers[index]);
      sessions[index] := r;
      UseLookup(l, listener, g, peers, s, index, r);
      assert sessions[..] == s[index := r];
    }

    /** Give each datagram a session or count it. */
    method AssignSessions(peers: seq<SocketAddr>, sessions: array<Option<SessionId>>)
      requires Valid() && listener.receiver.Ready? && |peers| <= sessions.Length
      requires forall i :: 0 <= i < sessions.Length ==> sessions[i].None?
      modifies this`listener, this`clock, this`dropTotal, this`staleTotal, sessions
      ensures Valid() && listener.receiver == old(listener.receiver)
      ensures Belong(listener.heap, listener.receiver.generation, peers, sessions[..]) && NoReturn(peers, sessions[..])
      ensures dropTotal + staleTotal + |Held(sessions[..])| == old(dropTotal + staleTotal) + |peers|
      ensures Calm() && old(UpToDate(listener) && |listener.sessions| + |peers| <= cfg.maxSessions) ==>
                UpToDate(listener) && AllLive(listener, sessions[..], |peers|) && |Held(sessions[..])| == |peers|
    {
      assert Held(sessions[..]) == {};
      for index := 0 to |peers|
        invariant Valid() && listener.receiver == old(listener.receiver)
        invariant Assigned(listener, listener.receiver.generation, peers, sessions[..], index)
        invariant dropTotal + staleTotal + |Held(sessions[..])| == old(dropTotal + staleTotal) + index
        invariant Calm() && old(UpToDate(listener) && |listener.sessions| + |peers| <= cfg.maxSessions) ==>
                    UpToDate(listener) && AllLive(listener, sessions[..], index)
                    && |listener.sessions| <= |old(listener.sessions)| + index
                    && dropTotal + staleTotal == old(dropTotal + staleTotal)
      {
        AssignOne(peers, sessions, index);
      }
    }

    /** Read the entry state under the read lock: a writer that holds the lock commits first. */
    method ReadState()
      requires Valid() && listener.receiver.Idle?
      modifies this`listener, this`clock
      ensures Valid()
      ensures listener.receiver.Ready? || listener.receiver.Idle?
      ensures listener.receiver.Ready? ==> listener.receiver.generation >= old(listener.entry.generation)
      ensures Calm() ==> listener.sessions == old(listener.sessions)
                              && (listener.receiver.Ready? <==> old(Serving(listener)))
                              && (listener.receiver.Ready? ==> UpToDate(listener))
    {
      Interfere();
      if listener.writer.Some? {
        Perform(Commit);
      }
      Perform(TakeSnapshot);
    }

    method CloseStale(id: SessionId)
      requires Valid() && listener.receiver.Ready? && listener.generation > listener.receiver.generation
      requires id in listener.heap && listener.heap[id].generation == listener.receiver.generation
      modifies this`listener, this`clock
      ensures Valid() && listener.receiver == old(listener.receiver) && listener.heap == old(listener.heap)
      ensures listener.generation >= old(listener.generation)
      ensures id in listener.closed && old(listener.closed) <= listener.closed
    {
      Interfere();
      Perform(MarkStale(id));
    }

    /** Take the session away from one prepared datagram, and count it. */
    method DropSession(peers: seq<SocketAddr>, sessions: array<Option<SessionId>>, i: nat)
      requires listener.receiver.Ready? && i < sessions.Length && sessions[i].Some?
      requires Belong(listener.heap, listener.receiver.generation, peers, sessions[..]) && NoReturn(peers, sessions[..])
      modifies this`staleTotal, sessions
      ensures sessions[..] == old(sessions[..])[i := None] && staleTotal == old(staleTotal) + 1
      ensures Belong(listener.heap, listener.receiver.generation, peers, sessions[..]) && NoReturn(peers, sessions[..])
      ensures |Held(sessions[..])| == |old(Held(sessions[..]))| - 1
    {
      staleTotal := staleTotal + 1;
      ghost var s := sessions[..];
      Forget(listener.heap, listener.receiver.generation, peers, s, i);
      sessions[i] := None;
      assert sessions[..] == s[i := None];
    }

    /** One turn of DiscardAll: close the session of this datagram, if it has one, and part from it. */
    method GiveUp(peers: seq<SocketAddr>, sessions: array<Option<SessionId>>, i: nat)
      requires Valid() && listener.receiver.Ready? && listener.generation > listener.receiver.generation
      requires Belong(listener.heap, listener.receiver.generation, peers, sessions[..]) && NoReturn(peers, sessions[..])
      requires i < sessions.Length
      modifies this`listener, this`clock, this`staleTotal, sessions
      ensures Valid() && listener.receiver == old(listener.receiver) && listener.heap == old(listener.heap)
      ensures listener.generation >= old(listener.generation) && old(listener.closed) <= listener.closed
      ensures Belong(listener.heap, listener.receiver.generation, peers, sessions[..]) && NoReturn(peers, sessions[..])
      ensures sessions[..] == old(sessions[..])[i := None]
      ensures old(sessions[i]).Some? ==> old(sessions[i]).value in listener.closed
      ensures staleTotal + |Held(sessions[..])| == old(staleTotal + |Held(sessions[..])|)
    {
      if sessions[i].Some? {
        CloseStale(sessions[i].value);
        DropSession(peers, sessions, i);
      } else {
        assert sessions[..] == sessions[..][i := None];
      }
    }

    /** The generation moved on while sessions were being prepared: every prepared session is stale. */
    method DiscardAll(peers: seq<SocketAddr>, sessions: array<Option<SessionId>>)
      requires Valid() && listener.receiver.Ready? && listener.generation != listener.receiver.generation
      requires Belong(listener.heap, listener.receiver.generation, peers, sessions[..]) && NoReturn(peers, sessions[..])
      modifies this`listener, this`clock, this`staleTotal, sessions
      ensures Valid() && listener.receiver == old(listener.receiver) && listener.heap == old(listener.heap)
      ensures Belong(listener.heap, listener.receiver.generation, peers, sessions[..]) && NoReturn(peers, sessions[..])
      ensures Held(sessions[..]) == {}
      ensures staleTotal == old(staleTotal) + |old(Held(sessions[..]))|
      ensures old(listener.generation) <= listener.generation && old(listener.closed) <= listener.closed
      ensures GivenUpClosed(listener.closed, old(sessions[..]), sessions[..])
    {
      for i := 0 to sessions.Length
        invariant Valid() && listener.receiver == old(listener.receiver) && listener.heap == old(listener.heap)
        invariant listener.generation > listener.receiver.generation
        invariant old(listener.generation) <= listener.generation && old(listener.closed) <= listener.closed
        invariant |sessions[..]| == |old(sessions[..])|
        invariant GivenUpClosed(listener.closed, old(sessions[..]), sessions[..])
        invariant Belong(listener.heap, listener.receiver.generation, peers, sessions[..])
        invariant NoReturn(peers, sessions[..])
        invariant forall j :: 0 <= j < i ==> sessions[j].None?
        invariant staleTotal + |Held(sessions[..])| == old(staleTotal) + |old(Held(sessions[..]))|
      {
        ghost var s, closed := sessions[..], listener.closed;
        GiveUp(peers, sessions, i);
        GivenUpStep(closed, listener.closed, old(sessions[..]), s, sessions[..], i);
      }
    }

    /** One turn of DiscardClosed: a session that can answer is never dropped. */
    method DropIfClosed(peers: seq<SocketAddr>, sessions: array<Option<SessionId>>, i: nat)
      requires Valid() && listener.receiver.Ready? && i < sessions.Length
      requires Belong(listener.heap, listener.receiver.generation, peers, sessions[..]) && NoReturn(peers, sessions[..])
      modifies this`listener, this`clock, this`staleTotal, sessions
      ensures Valid() && Rely(old(listener), listener)
      ensures Belong(listener.heap, listener.receiver.generation, peers, sessions[..]) && NoReturn(peers, sessions[..])
      ensures staleTotal + |Held(sessions[..])| == old(staleTotal + |Held(sessions[..])|)
      ensures sessions[..] == old(sessions[..])[i := sessions[i]]
      ensures sessions[i].Some? ==> sessions[i].value !in old(listener.closed)
      ensures sessions[i] == old(sessions[i])
              || (sessions[i].None? && old(sessions[i]).Some? && old(sessions[i]).value in listener.closed)
      ensures Calm() ==> listener == old(listener)
      ensures Calm() && old(sessions[i].Some? ==> PassesReplyCheck(listener, sessions[i].value)) ==>
              sessions[..] == old(sessions[..])
    {
      Interfere();
      if sessions[i].Some? && PassesReplyCheck(listener, sessions[i].value) {
        LiveIsOpen(cfg, listener, sessions[i].value);
      }
      if sessions[i].Some? && sessions[i].value in listener.closed {
        DropSession(peers, sessions, i);
      }
    }

    /** Drop the prepared sessions whose closed flag another task has set. */
    method DiscardClosed(peers: seq<SocketAddr>, sessions: array<Option<SessionId>>)
      requires Valid() && listener.receiver.Ready?
      requires Belong(listener.heap, listener.receiver.generation, peers, sessions[..]) && NoReturn(peers, sessions[..])
      modifies this`listener, this`clock, this`staleTotal, sessions
      ensures Valid() && listener.receiver == old(listener.receiver) && listener.heap == old(listener.heap)
      ensures Belong(listener.heap, listener.receiver.generation, peers, sessions[..]) && NoReturn(peers, sessions[..])
      ensures staleTotal + |Held(sessions[..])| == old(staleTotal) + |old(Held(sessions[..]))|
      ensures Calm() && old(AllLive(listener, sessions[..], |peers|)) ==> sessions[..] == old(sessions[..])
      ensures old(listener.generation) <= listener.generation && old(listener.closed) <= listener.closed
      ensures OpenIn(old(listener.closed), sessions[..], sessions.Length)
      ensures GivenUpClosed(listener.closed, old(sessions[..]), sessions[..])
    {
      for i := 0 to sessions.Length
        invariant Valid() && listener.receiver == old(listener.receiver) && listener.heap == old(listener.heap)
        invariant Belong(listener.heap, listener.receiver.generation, peers, sessions[..])
        invariant NoReturn(peers, sessions[..])
        invariant staleTotal + |Held(sessions[..])| == old(staleTotal) + |old(Held(sessions[..]))|
        invariant old(listener.generation) <= listener.generation && old(listener.closed) <= listener.closed
        invariant |sessions[..]| == |old(sessions[..])| && OpenIn(old(listener.closed), sessions[..], i)
        invariant GivenUpClosed(listener.closed, old(sessions[..]), sessions[..])
        invariant Calm() ==> listener == old(listener)
        invariant Calm() && old(AllLive(listener, sessions[..], |peers|)) ==> sessions[..] == old(sessions[..])
      {
        ghost var s, closed := sessions[..], listener.closed;
        DropIfClosed(peers, sessions, i);
        OpenStep(old(listener.closed), s, sessions[..], i);
        GivenUpStep(closed, listener.closed, old(sessions[..]), s, sessions[..], i);
      }
    }

    /** The checks after all lookups: the whole batch against the generation, then each closed flag. */
    method Discard(peers: seq<SocketAddr>, sessions: array<Option<SessionId>>) returns (ghost seen: Listener)
      requires Valid() && listener.receiver.Ready?
      requires Belong(listener.heap, listener.receiver.generation, peers, sessions[..]) && NoReturn(peers, sessions[..])
      modifies this`listener, this`clock, this`staleTotal, sessions
      ensures Valid() && listener.receiver == old(listener.receiver) && listener.heap == old(listener.heap)
      ensures Belong(listener.heap, listener.receiver.generation, peers, sessions[..]) && NoReturn(peers, sessions[..])
      ensures staleTotal + |Held(sessions[..])| == old(staleTotal) + |old(Held(sessions[..]))|
      ensures Calm() && old(UpToDate(listener) && AllLive(listener, sessions[..], |peers|)) ==>
              sessions[..] == old(sessions[..])
      ensures Inv(cfg, seen) && Rely(old(listener), seen) && Between(seen, listener)
      ensures Checked(seen, sessions[..]) && GivenUpClosed(listener.closed, old(sessions[..]), sessions[..])
    {
      Interfere();
      seen := listener;
      if listener.generation != listener.receiver.generation {
        DiscardAll(peers, sessions);
        NoneChecked(seen, sessions[..]);
      } else {
        DiscardClosed(peers, sessions);
        OpenChecked(seen, peers, sessions[..]);
      }
    }

    /**
     Prepare one received batch.  Every datagram is either left with a session of its own client,
     of one generation no older than the one committed when the batch arrived, or counted once; and
     in one state after the last lookup every session left was open and of the published generation.
     */
    method PrepareBatch(peers: seq<SocketAddr>)
      returns (prepared: seq<Option<SessionId>>, ghost generation: nat, ghost seen: Listener)
      requires Valid() && listener.receiver.Idle? && |peers| <= MAX_BATCH
      modifies this`listener, this`clock, this`dropTotal, this`staleTotal, this`rejectedTotal
      ensures Valid() && listener.receiver.Idle?
      ensures |prepared| == MAX_BATCH
      ensures Belong(listener.heap, generation, peers, prepared) && NoReturn(peers, prepared)
      ensures generation >= old(listener.entry.generation)
      ensures dropTotal + staleTotal + rejectedTotal + |Held(prepared)|
              == old(dropTotal + staleTotal + rejectedTotal) + |peers|
      ensures Inv(cfg, seen) && Between(seen, listener) && Checked(seen, prepared)
      ensures rejectedTotal != old(rejectedTotal) ==>
              && rejectedTotal == old(rejectedTotal) + |peers|
              && dropTotal == old(dropTotal) && staleTotal == old(staleTotal)
      ensures Calm() && old(!Serving(listener)) ==>
              Held(prepared) == {} && rejectedTotal == old(rejectedTotal) + |peers|
      ensures Calm() && old(Serving(listener) && |listener.sessions| + |peers| <= cfg.maxSessions) ==>
              |Held(prepared)| == |peers|
    {
      var sessions := new Option<SessionId>[MAX_BATCH](_ => None);
      generation := listener.entry.generation;
      ReadState();
      if listener.receiver.Idle? {
        rejectedTotal := rejectedTotal + |peers|;
        prepared := sessions[..];
        NoneHeld(prepared);
        seen := listener;
        return;
      }
      generation := listener.receiver.generation;
      seen := PrepareServed(peers, sessions);
      prepared := sessions[..];
    }

    /** The receive task lets go of the generation it prepared the batch with. */
    method Finish()
      requires Valid() && listener.receiver.Ready?
      modifies this`listener
      ensures Valid() && listener == old(listener).(receiver := Idle)
    {
      Perform(FinishBatch);
    }

    /** The part of PrepareBatch after the entry state has been read and found bound. */
    method PrepareServed(peers: seq<SocketAddr>, sessions: array<Option<SessionId>>) returns (ghost seen: Listener)
      requires Valid() && listener.receiver.Ready? && |peers| <= sessions.Length
      requires forall i :: 0 <= i < sessions.Length ==> sessions[i].None?
      modifies this`listener, this`clock, this`dropTotal, this`staleTotal, sessions
      ensures Valid() && listener.receiver.Idle?
      ensures Belong(listener.heap, old(listener.receiver.generation), peers, sessions[..])
              && NoReturn(peers, sessions[..])
      ensures dropTotal + staleTotal + |Held(sessions[..])| == old(dropTotal + staleTotal) + |peers|
      ensures Calm() && old(UpToDate(listener) && |listener.sessions| + |peers| <= cfg.maxSessions) ==>
              |Held(sessions[..])| == |peers|
      ensures Inv(cfg, seen) && Between(seen, listener) && Checked(seen, sessions[..])
    {
      AssignSessions(peers, sessions);
      seen := Discard(peers, sessions);
      Finish();
    }

    /** Hand one group to its upstream socket, batched when that is enabled and worthwhile. */
    method SendGroup(batchEnabled: bool, datagrams: seq<seq<Byte>>, indexes: seq<nat>, kernel: (nat, nat) -> int)
      returns (outcome: Outcome)
      requires ValidIndexes(datagrams, indexes) && |indexes| <= MAX_BATCH
      ensures outcome.wire <= Payloads(datagrams, indexes)
      ensures outcome.result == if |outcome.wire| == |indexes| then SentAll else SendFailed(|outcome.wire|)
      ensures TakesAll(kernel) ==> outcome.result.SentAll?
    {
      if batchEnabled && |indexes| > 1 {
        outcome := SendBatch(datagrams, indexes, kernel);
      } else {
        outcome := SendIndividually(datagrams, indexes, (position: nat) => kernel(position, 1) > 0);
        if TakesAll(kernel) {
          OneByOnePrefix(Payloads(datagrams, indexes), (position: nat) => kernel(position, 1) > 0, 0, |indexes|);
        }
      }
    }

    /** A failed send removes the session, if the table still maps it. */
    method RemoveSession(id: SessionId)
      requires Valid() && listener.receiver.Idle? && id in listener.heap
      modifies this`listener, this`clock
      ensures Valid() && listener.receiver.Idle? && listener.heap == old(listener.heap)
      ensures !Mapped(listener, id)
      ensures Calm() ==> listener == old(Apply(cfg, listener, RemoveIfSame(listener.heap[id].client, id)))
    {
      Interfere();
      var step := RemoveIfSame(listener.heap[id].client, id);
      StepKeepsInv(cfg, listener, step);
      listener := Apply(cfg, listener, step);
    }

    /** Send the group that starts at `first`; what is not sent is dropped and counted. */
    method ForwardGroup(batchEnabled: bool, datagrams: seq<seq<Byte>>, id: SessionId, indexes: seq<nat>,
                        kernel: (nat, nat) -> int)
      returns (ghost done: seq<nat>)
      requires Valid() && listener.receiver.Idle? && id in listener.heap
      requires ValidIndexes(datagrams, indexes) && |indexes| <= MAX_BATCH
      modifies this`listener, this`clock, this`dropTotal, this`forwarded
      ensures Valid() && listener.receiver.Idle? && listener.heap == old(listener.heap)
      ensures done <= indexes && ValidIndexes(datagrams, done)
      ensures forwarded == old(forwarded) + Entries(id, done, Payloads(datagrams, done))
      ensures |done| + dropTotal == old(dropTotal) + |indexes|
      ensures TakesAll(kernel) ==> dropTotal == old(dropTotal)
      ensures |done| < |indexes| ==> !Mapped(listener, id)
      ensures Calm() ==> listener == if |done| == |indexes| then old(listener)
                                     else old(Apply(cfg, listener, RemoveIfSame(listener.heap[id].client, id)))
    {
      var outcome := SendGroup(batchEnabled, datagrams, indexes, kernel);
      done := indexes[..|outcome.wire|];
      forwarded := forwarded + Entries(id, indexes[..|outcome.wire|], outcome.wire);
      assert outcome.wire == Payloads(datagrams, done);
      if outcome.result.SendFailed? {
        dropTotal := dropTotal + |indexes| - outcome.result.sent;
        RemoveSession(id);
      } else {
        Interfere();
      }
    }

    /**
     Process one received batch to the end.  Whatever the other tasks do and whatever share of each
     send the kernel takes: every datagram is forwarded or counted, exactly once; each goes out on a
     session of its own client that is no older than the entry state when the batch arrived and that,
     in one state after the last lookup, was open and of the published generation; and the datagrams
     of each client go out in the order they were received.  When nothing gets in the way
     and the table has room, every datagram of a bound listener goes out.
     */
    method ProcessBatch(batchEnabled: bool, peers: seq<SocketAddr>, datagrams: seq<seq<Byte>>,
                        kernel: (nat, nat, nat) -> int)
      returns (ghost seen: Listener)
      requires Valid() && listener.receiver.Idle? && |datagrams| == |peers| <= MAX_BATCH
      modifies this
      ensures Valid() && listener.receiver.Idle?
      ensures |forwarded| >= |old(forwarded)| && forwarded[..|old(forwarded)|] == old(forwarded)
      ensures var sent := forwarded[|old(forwarded)|..];
              && |sent| + dropTotal + staleTotal + rejectedTotal
                 == old(dropTotal + staleTotal + rejectedTotal) + |peers|
              && PerClientOrder(peers, sent)
              && Delivered(listener, peers, datagrams, sent, old(listener.entry.generation), seen)
      ensures Inv(cfg, seen) && seen.heap == listener.heap
      ensures Calm() && old(!Serving(listener)) ==>
              forwarded == old(forwarded) && rejectedTotal == old(rejectedTotal) + |peers|
      ensures Calm() && old(Serving(listener) && |listener.sessions| + |peers| <= cfg.maxSessions)
              && AlwaysTakesAll(kernel) ==>
                |forwarded| == |old(forwarded)| + |peers|
    {
      var sessions;
      ghost var generation;
      sessions, generation, seen := PrepareBatch(peers);
      ForwardAll(batchEnabled, peers, datagrams, sessions, generation, kernel);
      DeliveredAll(cfg, listener, peers, datagrams, sessions, forwarded[|old(forwarded)|..], generation, seen);
    }

    /** The grouping loop over a prepared batch. */
    method ForwardAll(batchEnabled: bool, peers: seq<SocketAddr>, datagrams: seq<seq<Byte>>,
                      sessions: seq<Option<SessionId>>, ghost generation: nat, kernel: (nat, nat, nat) -> int)
      requires Valid() && listener.receiver.Idle? && |datagrams| == |peers| <= MAX_BATCH == |sessions|
      requires Belong(listener.heap, generation, peers, sessions) && NoReturn(peers, sessions)
      modifies this`listener, this`clock, this`dropTotal, this`forwarded
      ensures Valid() && listener.receiver.Idle? && listener.heap == old(listener.heap)
      ensures |forwarded| >= |old(forwarded)| && forwarded[..|old(forwarded)|] == old(forwarded)
      ensures Faithful(sessions[..|peers|], datagrams, forwarded[|old(forwarded)|..])
      ensures PerClientOrder(peers, forwarded[|old(forwarded)|..])
      ensures |forwarded| + dropTotal == old(|forwarded| + dropTotal) + |Held(sessions)|
      ensures AlwaysTakesAll(kernel) ==> dropTotal == old(dropTotal)
      ensures Held(sessions) == {} ==> forwarded == old(forwarded)
    {
      PrefixShape(listener.heap, generation, peers, sessions);
      ghost var log := ForwardGroups(batchEnabled, peers, datagrams, sessions[..|peers|], generation, kernel);
      assert forwarded[..|old(forwarded)|] == old(forwarded) && forwarded[|old(forwarded)|..] == log;
      if log != [] { assert log[0].index in Held(sessions); }
    }

    method ForwardGroups(batchEnabled: bool, peers: seq<SocketAddr>, datagrams: seq<seq<Byte>>,
                         s: seq<Option<SessionId>>, ghost generation: nat, kernel: (nat, nat, nat) -> int)
      returns (ghost log: seq<Forwarded>)
      requires Valid() && listener.receiver.Idle? && |datagrams| == |peers| == |s| <= MAX_BATCH
      requires Belong(listener.heap, generation, peers, s) && NoReturn(peers, s)
      modifies this`listener, this`clock, this`dropTotal, this`forwarded
      ensures Valid() && listener.receiver.Idle? && listener.heap == old(listener.heap)
      ensures forwarded == old(forwarded) + log
      ensures Faithful(s, datagrams, log) && PerClientOrder(peers, log)
      ensures |log| + dropTotal == old(dropTotal) + |Held(s)|
      ensures AlwaysTakesAll(kernel) ==> dropTotal == old(dropTotal)
    {
      var grouped := new bool[MAX_BATCH](_ => false);
      ghost var base := forwarded;
      log := [];
      NothingHanded(s, grouped[..], peers, datagrams);
      for first := 0 to |s|
        invariant Valid() && listener.receiver.Idle? && listener.heap == old(listener.heap)
        invariant forwarded == base + log
        invariant Marked(s, grouped[..], first) && Handed(s, peers, datagrams, log, first)
        invariant |log| + dropTotal == old(dropTotal) + |HandledSet(s, first)|
        invariant AlwaysTakesAll(kernel) ==> dropTotal == old(dropTotal)
      {
        log := ForwardAt(batchEnabled, peers, datagrams, s, generation, grouped, first, base, log, kernel);
      }
      AllHandled(s, |s|);
    }

    /** Unless `first` is without a session or already grouped, send the group it opens. */
    method ForwardAt(batchEnabled: bool, peers: seq<SocketAddr>, datagrams: seq<seq<Byte>>,
                     s: seq<Option<SessionId>>, ghost generation: nat, grouped: array<bool>, first: nat,
                     ghost base: seq<Forwarded>, ghost log: seq<Forwarded>, kernel: (nat, nat, nat) -> int)
      returns (ghost log': seq<Forwarded>)
      requires Valid() && listener.receiver.Idle? && |datagrams| == |peers| == |s| <= MAX_BATCH == grouped.Length
      requires Belong(listener.heap, generation, peers, s) && NoReturn(peers, s)
      requires first < |s| && forwarded == base + log
      requires Marked(s, grouped[..], first) && Handed(s, peers, datagrams, log, first)
      modifies this`listener, this`clock, this`dropTotal, this`forwarded, grouped
      ensures Valid() && listener.receiver.Idle? && listener.heap == old(listener.heap)
      ensures forwarded == base + log'
      ensures Marked(s, grouped[..], first + 1) && Handed(s, peers, datagrams, log', first + 1)
      ensures |log'| + dropTotal + |HandledSet(s, first)| == |log| + old(dropTotal) + |HandledSet(s, first + 1)|
      ensures AlwaysTakesAll(kernel) ==> dropTotal == old(dropTotal)
    {
      if s[first].None? || grouped[first] {
        MarkedSkip(s, grouped[..], first);
        Skip(s, peers, datagrams, log, first);
        return log;
      }
      log' := OpenGroup(batchEnabled, peers, datagrams, s, generation, grouped, first, base, log, kernel);
    }

    /** Collect the group that starts at `first` and send it. */
    method OpenGroup(batchEnabled: bool, peers: seq<SocketAddr>, datagrams: seq<seq<Byte>>,
                     s: seq<Option<SessionId>>, ghost generation: nat, grouped: array<bool>, first: nat,
                     ghost base: seq<Forwarded>, ghost log: seq<Forwarded>, kernel: (nat, nat, nat) -> int)
      returns (ghost log': seq<Forwarded>)
      requires Valid() && listener.receiver.Idle? && |datagrams| == |peers| == |s| <= MAX_BATCH == grouped.Length
      requires Belong(listener.heap, generation, peers, s) && NoReturn(peers, s)
      requires first < |s| && s[first].Some? && !grouped[first] && forwarded == base + log
      requires Marked(s, grouped[..], first) && Handed(s, peers, datagrams, log, first)
      modifies this`listener, this`clock, this`dropTotal, this`forwarded, grouped
      ensures Valid() && listener.receiver.Idle? && listener.heap == old(listener.heap)
      ensures forwarded == base + log'
      ensures Marked(s, grouped[..], first + 1) && Handed(s, peers, datagrams, log', first + 1)
      ensures |log'| + dropTotal + |HandledSet(s, first)| == |log| + old(dropTotal) + |HandledSet(s, first + 1)|
      ensures AlwaysTakesAll(kernel) ==> dropTotal == old(dropTotal)
    {
      assert !Handled(s, first, first);
      var group := TakeGroup(s, first, grouped);
      log' := ForwardTaken(batchEnabled, peers, datagrams, s, generation, first, group, base, log, kernel);
    }

    /** Send a collected group and append what went out to the log. */
    method ForwardTaken(batchEnabled: bool, peers: seq<SocketAddr>, datagrams: seq<seq<Byte>>,
                        s: seq<Option<SessionId>>, ghost generation: nat, first: nat, group: seq<nat>,
                        ghost base: seq<Forwarded>, ghost log: seq<Forwarded>, kernel: (nat, nat, nat) -> int)
      returns (ghost log': seq<Forwarded>)
      requires Valid() && listener.receiver.Idle? && |datagrams| == |peers| == |s| <= MAX_BATCH
      requires Belong(listener.heap, generation, peers, s) && NoReturn(peers, s)
      requires first < |s| && s[first].Some? && !Handled(s, first, first) && forwarded == base + log
      requires group == IndexesOf(s, s[first].value, first, |s|) && ValidIndexes(datagrams, group) && |group| <= |s|
      requires Handed(s, peers, datagrams, log, first)
      modifies this`listener, this`clock, this`dropTotal, this`forwarded
      ensures Valid() && listener.receiver.Idle? && listener.heap == old(listener.heap)
      ensures forwarded == base + log' && Handed(s, peers, datagrams, log', first + 1)
      ensures |log'| + dropTotal == |log| + old(dropTotal) + |group|
      ensures AlwaysTakesAll(kernel) ==> dropTotal == old(dropTotal)
    {
      var id := s[first].value;
      ghost var done := ForwardGroup(batchEnabled, datagrams, id, group, ForGroup(kernel, first));
      log' := ExtendLog(listener.heap, generation, peers, s, datagrams, base, log, first, done);
    }
  }
}
