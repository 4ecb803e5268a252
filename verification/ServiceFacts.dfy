/** What the service's writes do to the readings of the tables, and what it means to be in step. */
module ServiceFacts {
  import opened Model
  import opened Storage
  import opened Repositories

  /** The runtime holds exactly the allocation the row hydrates to, or nothing where there is no row. */
  predicate Synced(t: Tables, runtime: map<string, Allocation>, id: string) {
    if id in t.allocations then
      Hydrated(t, id).Some? && id in runtime && runtime[id] == Hydrated(t, id).value
    else id !in runtime
  }

  /** What the runtime holds under an id is of the protocol the id's row names, if the row can be read. */
  predicate RowKind(t: Tables, runtime: map<string, Allocation>, id: string) {
    id in t.allocations && id in runtime ==>
      match ParseProtocol(t.allocations[id].protocol)
      case Ok(protocol) => runtime[id].protocol == protocol
      case Err(_) => true
  }

  ghost predicate Kin(t: Tables, runtime: map<string, Allocation>) {
    forall id :: RowKind(t, runtime, id)
  }

  lemma RewriteKeepsKin(t: Tables, t': Tables, runtime: map<string, Allocation>)
    requires Kin(t, runtime) && PortsKept(t, t')
    ensures Kin(t', runtime)
  {
    forall id ensures RowKind(t', runtime, id) { assert RowKind(t, runtime, id); }
  }

  /** What a row hydrates to is of the row's protocol, so it fits what the runtime holds, and may be put there. */
  lemma HydratedIsKin(t: Tables, runtime: map<string, Allocation>, a: Allocation)
    requires Kin(t, runtime) && a.id in t.allocations && Hydrated(t, a.id) == Some(a)
    ensures a.id in runtime ==> runtime[a.id].protocol == a.protocol
    ensures Kin(t, runtime[a.id := a])
  {
    var runtime' := runtime[a.id := a];
    assert RowKind(t, runtime, a.id);
    forall id ensures RowKind(t, runtime', id) { assert RowKind(t, runtime, id); }
  }

  lemma RemovalKeepsKin(t: Tables, runtime: map<string, Allocation>, id: string)
    requires Kin(t, runtime)
    ensures Kin(t, runtime - {id})
  {
    var runtime' := runtime - {id};
    forall other ensures RowKind(t, runtime', other) { assert RowKind(t, runtime, other); }
  }

  /** An id without a row may be given to the runtime, and then stored. */
  lemma NewIsKin(t: Tables, runtime: map<string, Allocation>, a: Allocation)
    requires Kin(t, runtime) && a.id !in t.allocations
    ensures Kin(t, runtime[a.id := a])
    ensures forall t': Tables :: t'.allocations == t.allocations[a.id := RowOf(a)] ==> Kin(t', runtime[a.id := a])
  {
    ProtocolRoundTrip(a.protocol);
    var runtime' := runtime[a.id := a];
    forall id ensures RowKind(t, runtime', id) { assert RowKind(t, runtime, id); }
    forall t': Tables | t'.allocations == t.allocations[a.id := RowOf(a)] ensures Kin(t', runtime') {
      forall id ensures RowKind(t', runtime', id) { assert RowKind(t, runtime, id); }
    }
  }

  /** Both tables and the runtime agree with their former selves on this id. */
  predicate Untouched(t: Tables, t': Tables, runtime: map<string, Allocation>, runtime': map<string, Allocation>,
                      id: string) {
    && (id in t.allocations <==> id in t'.allocations)
    && (id in t.allocations ==> t.allocations[id] == t'.allocations[id])
    && BindingOf(t, id) == BindingOf(t', id)
    && (id in runtime <==> id in runtime')
    && (id in runtime ==> runtime[id] == runtime'[id])
  }

  ghost predicate OthersUntouched(t: Tables, t': Tables, runtime: map<string, Allocation>,
                                  runtime': map<string, Allocation>, id: string) {
    forall other :: other != id ==> Untouched(t, t', runtime, runtime', other)
  }

  lemma UntouchedStaysSynced(t: Tables, t': Tables, runtime: map<string, Allocation>,
                             runtime': map<string, Allocation>, id: string)
    requires Untouched(t, t', runtime, runtime', id)
    ensures Hydrated(t, id) == Hydrated(t', id) && Synced(t, runtime, id) == Synced(t', runtime', id)
  {
    if id in t.bindings { assert t.bindings[id] == t'.bindings[id]; }
  }

  /** allocation_with_binding. */
  function WithBinding(a: Allocation, b: Binding): Allocation {
    a.(targetPort := Some(b.targetPort), host := b.host, updatedAtMs := b.updatedAtMs)
  }

  /** After a put, a read hydrates the old allocation with the new binding, and the binding itself. */
  lemma PutHydrates(t: Tables, t': Tables, a: Allocation, b: Binding)
    requires b.allocationId == a.id && a.id in t.allocations && Hydrated(t, a.id) == Some(a)
    requires t'.allocations.Keys == t.allocations.Keys
    requires t'.allocations[a.id] ==
             t.allocations[a.id].(targetPort := b.targetPort as int, host := b.host, updatedAtMs := b.updatedAtMs)
    requires a.id in t'.bindings && t'.bindings[a.id] == BindingRowOf(b)
    ensures Hydrated(t', a.id) == Some(WithBinding(a, b))
    ensures GetBinding(t', a.id) == Ok(Some(b))
  {
  }

  /** After a delete of the binding, a read hydrates an unbound allocation. */
  lemma ClearHydrates(t: Tables, t': Tables, a: Allocation, now: int)
    requires a.id in t.allocations && Hydrated(t, a.id) == Some(a)
    requires t'.allocations.Keys == t.allocations.Keys
    requires t'.allocations[a.id] == t.allocations[a.id].(targetPort := 0, host := None, updatedAtMs := now)
    requires a.id !in t'.bindings
    ensures Hydrated(t', a.id) == Some(a.(targetPort := None, host := None, updatedAtMs := now))
    ensures GetBinding(t', a.id) == Ok(None)
  {
  }

  /** A freshly inserted allocation reads back as itself. */
  lemma InsertHydrates(t': Tables, a: Allocation)
    requires a.host == None && a.id in t'.allocations && t'.allocations[a.id] == RowOf(a)
    requires BindingOf(t', a.id) ==
             if a.targetPort.None? then None
             else Some(BindingRow(a.targetPort.value as int, None, a.createdAtMs, a.updatedAtMs))
    ensures Hydrated(t', a.id) == Some(a)
  {
    ProtocolRoundTrip(a.protocol);
  }

  // ------------------------------------------------------------------ overlaps

  /** No overlaps anywhere, and plain text on the ports a service with this range hands out. */
  ghost predicate Sound(t: Tables, lo: int, hi: int) {
    Plain(t, lo, hi) && Storage.OverlapFree(t)
  }

  /** Protocol and port of every surviving row are as before. */
  ghost predicate PortsKept(t: Tables, t': Tables) {
    forall id :: id in t'.allocations ==>
      id in t.allocations && t.allocations[id].protocol == t'.allocations[id].protocol
      && t.allocations[id].port == t'.allocations[id].port
  }

  lemma PortsKeptSound(t: Tables, t': Tables, lo: int, hi: int)
    requires Sound(t, lo, hi) && PortsKept(t, t')
    ensures Sound(t', lo, hi)
  {
    forall x, y | x in t'.allocations && y in t'.allocations && x != y
      ensures !RowsOverlap(t'.allocations[x], t'.allocations[y])
    {
      assert !RowsOverlap(t.allocations[x], t.allocations[y]);
    }
  }

  /** Some row takes this port for the requested protocol, as the query's text filter sees it. */
  predicate Taken(t: Tables, requested: Protocol, port: int) {
    exists id :: id in t.allocations && Selected(requested, t.allocations[id].protocol)
                 && t.allocations[id].port == port
  }

  lemma OccupiedIsTaken(t: Tables, requested: Protocol, start: int, end: int, port: int)
    requires start <= port <= end
    ensures port in Occupied(t, requested, start, end) <==> Taken(t, requested, port)
  {
  }

  /** The row keeps the port from the requested protocol; an unreadable row keeps it from Both alone. */
  predicate Blocks(row: AllocationRow, requested: Protocol) {
    match ParseProtocol(row.protocol)
    case Ok(protocol) => Conflict(requested, protocol)
    case Err(_) => requested == Both
  }

  /** Where the table is plain the filter's notion of a taken port is the real one. */
  lemma TakenIsConflict(t: Tables, lo: int, hi: int, requested: Protocol, port: Port)
    requires Plain(t, lo, hi) && lo <= port as int <= hi
    ensures Taken(t, requested, port as int) <==>
            exists id :: id in t.allocations && t.allocations[id].port == port as int
                         && Blocks(t.allocations[id], requested)
  {
    ProtocolRoundTrip(Tcp);
    ProtocolRoundTrip(Udp);
    ProtocolRoundTrip(Both);
    forall id | id in t.allocations && t.allocations[id].port == port as int
      ensures Selected(requested, t.allocations[id].protocol) <==> Blocks(t.allocations[id], requested)
    {
      if Legible(t.allocations[id]) { FilterExactIffCanonical(t.allocations[id].protocol); }
    }
  }

  function Inserted(t: Tables, a: Allocation): Tables {
    t.(allocations := t.allocations[a.id := RowOf(a)])
  }

  /** Adding a row on a port of the range that is not taken keeps the table sound. */
  lemma InsertSound(t: Tables, t': Tables, lo: int, hi: int, a: Allocation)
    requires Sound(t, lo, hi) && lo <= a.port as int <= hi && !Taken(t, a.protocol, a.port as int)
    requires a.id !in t.allocations && t'.allocations == Inserted(t, a).allocations
    ensures Sound(t', lo, hi)
  {
    ProtocolRoundTrip(a.protocol);
    TakenIsConflict(t, lo, hi, a.protocol, a.port);
    forall x, y | x in t'.allocations && y in t'.allocations && x != y
      ensures !RowsOverlap(t'.allocations[x], t'.allocations[y])
    {
      if x != a.id && y != a.id { assert !RowsOverlap(t.allocations[x], t.allocations[y]); }
    }
  }

  /** The port search over a range may hand out this allocation. */
  predicate Allowed(t: Tables, lo: int, hi: int, a: Allocation) {
    a.id !in t.allocations && lo <= a.port as int <= hi && !Taken(t, a.protocol, a.port as int)
  }

  /** Every insert the port search over a range allows keeps the table free of overlaps. */
  ghost predicate InsertsSafe(t: Tables, lo: int, hi: int) {
    forall a: Allocation :: Allowed(t, lo, hi, a) ==> Storage.OverlapFree(Inserted(t, a))
  }

  lemma FreshString(ids: set<string>) returns (id: string)
    ensures id !in ids
  {
    var longest: nat := 0;
    var rest := ids;
    while rest != {}
      invariant rest <= ids
      invariant forall id :: id in ids && id !in rest ==> |id| <= longest
      decreases rest
    {
      var id :| id in rest;
      if |id| > longest { longest := |id|; }
      rest := rest - {id};
    }
    id := seq(longest + 1, _ => 'x');
  }

  /** What to ask for so that a row the filter cannot recognise is overlooked. */
  function Overlooking(protocol: Protocol): Protocol {
    if protocol == Udp then Udp else Tcp
  }

  /** A readable row in another spelling lets the search hand out its port again. */
  lemma OverlookedRow(t: Tables, id: string) returns (a: Allocation)
    requires Storage.OverlapFree(t) && id in t.allocations && Legible(t.allocations[id])
    requires !CanonicalText(t.allocations[id].protocol)
    ensures a.port as int == t.allocations[id].port
    ensures a.id !in t.allocations && !Taken(t, a.protocol, a.port as int) && !Storage.OverlapFree(Inserted(t, a))
  {
    var row := t.allocations[id];
    var requested := Overlooking(ParseProtocol(row.protocol).value);
    var unused := FreshString(t.allocations.Keys);
    a := Allocation(unused, requested, row.port as Port, None, None, 0, 0);
    ProtocolRoundTrip(Tcp);
    ProtocolRoundTrip(Udp);
    ProtocolRoundTrip(Both);
    if other :| other in t.allocations && Selected(requested, t.allocations[other].protocol)
                && t.allocations[other].port == row.port
    {
      assert RowsOverlap(t.allocations[other], row);
    }
    assert RowsOverlap(Inserted(t, a).allocations[unused], Inserted(t, a).allocations[id]);
  }

  /** The port search keeps a table overlap-free exactly when it recognises every readable protocol in its range. */
  lemma InsertsSafeIffPlain(t: Tables, lo: int, hi: int)
    requires Storage.OverlapFree(t)
    ensures InsertsSafe(t, lo, hi) <==> Plain(t, lo, hi)
  {
    if Plain(t, lo, hi) {
      forall a: Allocation | Allowed(t, lo, hi, a) ensures Storage.OverlapFree(Inserted(t, a)) {
        InsertSound(t, Inserted(t, a), lo, hi, a);
      }
    } else {
      var id :| && id in t.allocations && Legible(t.allocations[id]) && lo <= t.allocations[id].port <= hi
                && !CanonicalText(t.allocations[id].protocol);
      var a := OverlookedRow(t, id);
      assert Allowed(t, lo, hi, a);
    }
  }

  /** One upper-case row is enough: the index takes the second row, and the port is given out twice. */
  lemma UpperCaseOverlooked() returns (t: Tables, a: Allocation)
    ensures Storage.OverlapFree(t) && a.id !in t.allocations && !Taken(t, a.protocol, a.port as int)
    ensures !IndexTaken(t, AsStr(a.protocol), a.port as int) && !Storage.OverlapFree(Inserted(t, a))
  {
    t := Tables(map["x" := AllocationRow("TCP", 10000, 0, None, 0, 0)], map[]);
    assert ToAsciiLowercase("TCP") == "tcp";
    a := OverlookedRow(t, "x");
    FreePassesIndex(t, a);
  }

  /** The index check lets through exactly the rows that keep the index unique. */
  lemma IndexGuards(t: Tables, a: Allocation)
    requires UniqueIndex(t) && a.id !in t.allocations
    ensures UniqueIndex(Inserted(t, a)) <==> !IndexTaken(t, AsStr(a.protocol), a.port as int)
  {
    var t' := Inserted(t, a);
    if id :| id in t.allocations && t.allocations[id].protocol == AsStr(a.protocol)
             && t.allocations[id].port == a.port as int
    {
      assert t'.allocations[id] == t.allocations[id] && t'.allocations[a.id] == RowOf(a);
    }
  }

  /** A port that is not taken cannot violate the unique index. */
  lemma FreePassesIndex(t: Tables, a: Allocation)
    requires !Taken(t, a.protocol, a.port as int)
    ensures !IndexTaken(t, AsStr(a.protocol), a.port as int)
  {
  }

  /** Rows that have their binding, and rows that repeat it, go on doing so; new rows do both. */
  ghost predicate TidyKept(t: Tables, t': Tables) {
    forall id :: (CompleteAt(t, id) ==> CompleteAt(t', id)) && (MirroredAt(t, id) ==> MirroredAt(t', id))
  }

  /** Only one id was touched, and what is left of it is tidy. */
  lemma OneTidied(t: Tables, t': Tables, runtime: map<string, Allocation>, runtime': map<string, Allocation>,
                  id: string)
    requires OthersUntouched(t, t', runtime, runtime', id) && CompleteAt(t', id) && MirroredAt(t', id)
    ensures TidyKept(t, t')
  {
    forall other | other != id
      ensures (CompleteAt(t, other) ==> CompleteAt(t', other)) && (MirroredAt(t, other) ==> MirroredAt(t', other))
    {
      assert Untouched(t, t', runtime, runtime', other);
      assert BindingOf(t, other) == BindingOf(t', other);
    }
  }

  /** Every binding keeps its creation time or is gone, and only the ids listed may be gone. */
  ghost predicate CreationKept(t: Tables, t': Tables, deleted: set<string>) {
    forall id :: id in t.bindings ==>
      if id in t'.bindings then t'.bindings[id].createdAtMs == t.bindings[id].createdAtMs else id in deleted
  }
}
