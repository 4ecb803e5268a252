/**
 The SQLite store: two tables with raw columns, the three ways of reading an allocation out of
 them, the legacy migration and the port query.
 */
module Storage {
  import opened Model
  import opened PortSearch

  datatype AllocationRow = AllocationRow(
    protocol: string,
    port: int,
    targetPort: int,
    host: Option<string>,
    createdAtMs: int,
    updatedAtMs: int)

  datatype BindingRow = BindingRow(targetPort: int, host: Option<string>, createdAtMs: int, updatedAtMs: int)

  datatype Tables = Tables(allocations: map<string, AllocationRow>, bindings: map<string, BindingRow>)

  datatype RepositoryError =
    | InvalidProtocol(text: string)
    | InvalidPort(field: string, value: int)
    | PortConversion(value: int)
    | Database

  function AsStr(protocol: Protocol): string {
    match protocol
    case Tcp => "tcp"
    case Udp => "udp"
    case Both => "both"
  }

  function Lower(c: char): char {
    if 'A' <= c <= 'Z' then (c as int + 32) as char else c
  }

  function ToAsciiLowercase(text: string): (r: string)
    ensures |r| == |text|
  {
    seq(|text|, i requires 0 <= i < |text| => Lower(text[i]))
  }

  function ParseProtocol(text: string): Result<Protocol, RepositoryError> {
    var lower := ToAsciiLowercase(text);
    if lower == "tcp" then Ok(Tcp)
    else if lower == "udp" then Ok(Udp)
    else if lower == "both" then Ok(Both)
    else Err(InvalidProtocol(text))
  }

  lemma ProtocolRoundTrip(protocol: Protocol)
    ensures ParseProtocol(AsStr(protocol)) == Ok(protocol)
  {
    var text := AsStr(protocol);
    assert ToAsciiLowercase(text) == text;
  }

  function PortFromI32(field: string, value: int): Result<Port, RepositoryError> {
    if value < 0 then Err(InvalidPort(field, value))
    else if value >= 65536 then Err(PortConversion(value))
    else Ok(value as Port)
  }

  function Or(first: Option<string>, second: Option<string>): Option<string> {
    if first.Some? then first else second
  }

  // -------------------------------------------------------- the three readings

  /** row_to_allocation, on the columns of the join; the binding target is NULL when nothing joined. */
  function RowToAllocation(id: string, row: AllocationRow, bindingTarget: Option<int>, bindingHost: Option<string>)
    : Result<Allocation, RepositoryError>
  {
    var target: Result<Option<Port>, RepositoryError> :=
      match bindingTarget
      case Some(t) => (match PortFromI32("binding.target_port", t) case Ok(p) => Ok(Some(p)) case Err(e) => Err(e))
      case None =>
        if row.targetPort > 0 then
          (match PortFromI32("target_port", row.targetPort) case Ok(p) => Ok(Some(p)) case Err(e) => Err(e))
        else Ok(None);
    match target
    case Err(e) => Err(e)
    case Ok(t) =>
      match ParseProtocol(row.protocol)
      case Err(e) => Err(e)
      case Ok(protocol) =>
        match PortFromI32("port", row.port)
        case Err(e) => Err(e)
        case Ok(port) =>
          Ok(Allocation(id, protocol, port, t, Or(bindingHost, row.host), row.createdAtMs, row.updatedAtMs))
  }

  /** model_to_allocation, on a row and the binding found for it in a hash map. */
  function ModelToAllocation(id: string, row: AllocationRow, binding: Option<BindingRow>)
    : Result<Allocation, RepositoryError>
  {
    match ParseProtocol(row.protocol)
    case Err(e) => Err(e)
    case Ok(protocol) =>
      match PortFromI32("port", row.port)
      case Err(e) => Err(e)
      case Ok(port) =>
        if binding.Some? then
          match PortFromI32("binding.target_port", binding.value.targetPort)
          case Err(e) => Err(e)
          case Ok(t) => Ok(Allocation(id, protocol, port, Some(t), Or(binding.value.host, row.host),
                                      row.createdAtMs, row.updatedAtMs))
        else if row.targetPort > 0 then
          match PortFromI32("target_port", row.targetPort)
          case Err(e) => Err(e)
          case Ok(t) => Ok(Allocation(id, protocol, port, Some(t), row.host, row.createdAtMs, row.updatedAtMs))
        else
          Ok(Allocation(id, protocol, port, None, row.host, row.createdAtMs, row.updatedAtMs))
  }

  /** row_to_allocation_with_binding, on the wide join with its COALESCE columns. */
  function RowWithBinding(id: string, row: AllocationRow, bindingId: Option<string>, bindingTarget: int,
                          bindingHost: Option<string>, bindingCreated: int, bindingUpdated: int)
    : Result<(Allocation, Option<Binding>), RepositoryError>
  {
    var binding: Result<Option<Binding>, RepositoryError> :=
      match bindingId
      case None => Ok(None)
      case Some(b) =>
        match PortFromI32("binding.target_port", bindingTarget)
        case Ok(p) => Ok(Some(Binding(b, p, bindingHost, bindingCreated, bindingUpdated)))
        case Err(e) => Err(e);
    match binding
    case Err(e) => Err(e)
    case Ok(b) =>
      var target: Result<Option<Port>, RepositoryError> :=
        if b.Some? then Ok(Some(b.value.targetPort))
        else if row.targetPort > 0 then
          (match PortFromI32("target_port", row.targetPort) case Ok(p) => Ok(Some(p)) case Err(e) => Err(e))
        else Ok(None);
      match target
      case Err(e) => Err(e)
      case Ok(t) =>
        match ParseProtocol(row.protocol)
        case Err(e) => Err(e)
        case Ok(protocol) =>
          match PortFromI32("port", row.port)
          case Err(e) => Err(e)
          case Ok(port) =>
            Ok((Allocation(id, protocol, port, t, Or(if b.Some? then b.value.host else None, row.host),
                           row.createdAtMs, row.updatedAtMs), b))
  }

  function BindingOf(t: Tables, id: string): Option<BindingRow> {
    if id in t.bindings then Some(t.bindings[id]) else None
  }

  /** get_allocation: a LEFT JOIN on the binding's primary key. */
  function GetAllocation(t: Tables, id: string): Result<Option<Allocation>, RepositoryError> {
    if id !in t.allocations then Ok(None)
    else
      var b := BindingOf(t, id);
      match RowToAllocation(id, t.allocations[id], if b.Some? then Some(b.value.targetPort) else None,
                            if b.Some? then b.value.host else None)
      case Ok(a) => Ok(Some(a))
      case Err(e) => Err(e)
  }

  /** get_allocation_with_binding. */
  function GetWithBinding(t: Tables, id: string): Result<Option<(Allocation, Option<Binding>)>, RepositoryError> {
    if id !in t.allocations then Ok(None)
    else
      var b := BindingOf(t, id);
      match RowWithBinding(id, t.allocations[id], if b.Some? then Some(id) else None,
                           if b.Some? then b.value.targetPort else 0, if b.Some? then b.value.host else None,
                           if b.Some? then b.value.createdAtMs else 0, if b.Some? then b.value.updatedAtMs else 0)
      case Ok(pair) => Ok(Some(pair))
      case Err(e) => Err(e)
  }

  /** What list_allocations makes of one row. */
  function ListedRow(t: Tables, id: string): Result<Allocation, RepositoryError>
    requires id in t.allocations
  {
    ModelToAllocation(id, t.allocations[id], BindingOf(t, id))
  }

  function GetBinding(t: Tables, id: string): Result<Option<Binding>, RepositoryError> {
    if id !in t.bindings then Ok(None)
    else
      var b := t.bindings[id];
      match PortFromI32("binding.target_port", b.targetPort)
      case Ok(p) => Ok(Some(Binding(id, p, b.host, b.createdAtMs, b.updatedAtMs)))
      case Err(e) => Err(e)
  }

  /** The allocation a row stands for, when it stands for one. */
  function Hydrated(t: Tables, id: string): Option<Allocation> {
    match GetAllocation(t, id)
    case Ok(a) => a
    case Err(_) => None
  }

  /**
   The three readings succeed on the same rows and agree there; the wide one also returns
   exactly what get_binding reads.
   */
  lemma ReadingsAgree(t: Tables, id: string)
    requires id in t.allocations
    ensures GetAllocation(t, id).Ok? == ListedRow(t, id).Ok? == GetWithBinding(t, id).Ok?
    ensures ListedRow(t, id).Ok? ==>
              && GetAllocation(t, id).value == Some(ListedRow(t, id).value)
              && GetWithBinding(t, id).value.Some?
              && GetWithBinding(t, id).value.value.0 == ListedRow(t, id).value
              && GetBinding(t, id) == Ok(GetWithBinding(t, id).value.value.1)
  {
  }

  /** What a row hydrates to, column by column: the binding's target and host come before the row's own. */
  lemma HydratedFrom(t: Tables, id: string, a: Allocation)
    requires Hydrated(t, id) == Some(a)
    ensures id in t.allocations
    ensures var row := t.allocations[id];
            && a.id == id && a.port as int == row.port && ParseProtocol(row.protocol) == Ok(a.protocol)
            && a.createdAtMs == row.createdAtMs && a.updatedAtMs == row.updatedAtMs
            && (if id in t.bindings then a.targetPort.Some? && a.targetPort.value as int == t.bindings[id].targetPort
                else if row.targetPort > 0 then a.targetPort.Some? && a.targetPort.value as int == row.targetPort
                else a.targetPort == None)
            && a.host == if id in t.bindings && t.bindings[id].host.Some? then t.bindings[id].host else row.host
  {
  }

  // ---------------------------------------------------------------- migration

  function Migrate(t: Tables): Tables {
    t.(bindings := t.bindings
         + map id | id in t.allocations && t.allocations[id].targetPort > 0 && id !in t.bindings
           :: BindingRow(t.allocations[id].targetPort, t.allocations[id].host,
                         t.allocations[id].createdAtMs, t.allocations[id].updatedAtMs))
  }

  /** The migration changes no allocation anyone can read. */
  lemma MigrationInvisible(t: Tables, id: string)
    ensures Hydrated(Migrate(t), id) == Hydrated(t, id)
    ensures GetAllocation(Migrate(t), id).Ok? == GetAllocation(t, id).Ok?
    ensures id in t.bindings ==> GetBinding(Migrate(t), id) == GetBinding(t, id)
  {
  }

  lemma MigrationIdempotent(t: Tables)
    ensures Migrate(Migrate(t)) == Migrate(t)
  {
    var m := Migrate(t);
    assert Migrate(m).bindings == m.bindings;
  }

  /** After the migration an allocation with a target has a binding that says so, and one without has none. */
  lemma MigrationCompletes(t: Tables, id: string, a: Allocation)
    requires Hydrated(t, id) == Some(a)
    ensures GetBinding(Migrate(t), id) ==
            if a.targetPort.None? then Ok(None)
            else if id in t.bindings then GetBinding(t, id)
            else Ok(Some(Binding(id, a.targetPort.value, a.host, a.createdAtMs, a.updatedAtMs)))
  {
  }

  /** A row that names a target has its binding. */
  predicate CompleteAt(t: Tables, id: string) {
    id in t.allocations && t.allocations[id].targetPort > 0 ==> id in t.bindings
  }

  /** The row repeats what its binding says. */
  predicate MirroredAt(t: Tables, id: string) {
    id in t.allocations && id in t.bindings ==>
      t.allocations[id].targetPort == t.bindings[id].targetPort && t.allocations[id].host == t.bindings[id].host
  }

  lemma MigrationTidies(t: Tables, id: string)
    ensures CompleteAt(Migrate(t), id)
    ensures MirroredAt(t, id) ==> MirroredAt(Migrate(t), id)
  {
  }

  /** Where every target has its binding, what get_binding reads is what the allocation hydrates to. */
  lemma CompleteReading(t: Tables, id: string, a: Allocation)
    requires Hydrated(t, id) == Some(a) && CompleteAt(t, id)
    ensures GetBinding(t, id).Ok? && (GetBinding(t, id).value.Some? <==> a.targetPort.Some?)
    ensures GetBinding(t, id).value.Some? ==> GetBinding(t, id).value.value.targetPort == a.targetPort.value
    ensures GetBinding(t, id).value.Some? && MirroredAt(t, id) ==> GetBinding(t, id).value.value.host == a.host
  {
  }

  // -------------------------------------------------------------- port search

  predicate Conflict(a: Protocol, b: Protocol) {
    (Covers(a, Tcp) && Covers(b, Tcp)) || (Covers(a, Udp) && Covers(b, Udp))
  }

  /** The WHERE clause on the protocol column, compared as text. */
  predicate Selected(requested: Protocol, text: string) {
    match requested
    case Tcp => text == "tcp" || text == "both"
    case Udp => text == "udp" || text == "both"
    case Both => true
  }

  predicate CanonicalText(text: string) {
    text == "tcp" || text == "udp" || text == "both"
  }

  /** For a readable protocol, the text filter finds every conflict exactly when the text is lower case. */
  lemma FilterExactIffCanonical(text: string)
    requires ParseProtocol(text).Ok?
    ensures (forall requested :: Selected(requested, text) <==> Conflict(requested, ParseProtocol(text).value))
            <==> CanonicalText(text)
  {
    ProtocolRoundTrip(Tcp);
    ProtocolRoundTrip(Udp);
    ProtocolRoundTrip(Both);
    var protocol := ParseProtocol(text).value;
    assert Selected(Tcp, text) || Selected(Udp, text) <==> CanonicalText(text);
    assert Conflict(Tcp, protocol) || Conflict(Udp, protocol);
  }

  function Occupied(t: Tables, requested: Protocol, start: int, end: int): set<int> {
    set id | id in t.allocations && Selected(requested, t.allocations[id].protocol)
             && start <= t.allocations[id].port <= end
      :: t.allocations[id].port
  }

  /** The gap query finds what the linear search finds, for each protocol filter. */
  method FindAvailablePort(t: Tables, requested: Protocol, start: Port, end: Port)
    returns (r: Result<Option<Port>, RepositoryError>)
    ensures r.Ok?
    ensures Scan(Occupied(t, requested, start as int, end as int), start as int, end as int)
            == if r.value.Some? then Some(r.value.value as int) else None
  {
    var occupied := Occupied(t, requested, start as int, end as int);
    var gap := LeastGap(occupied, start as int, end as int);
    ScanLeast(occupied, start as int, end as int);
    match gap
    case None => r := Ok(None);
    case Some(p) =>
      match PortFromI32("port", p) {
        case Ok(port) => r := Ok(Some(port));
        case Err(e) => r := Err(e);
      }
  }

  // ------------------------------------------------------------- overlap freedom

  /** The row stands for an allocation as far as its protocol and its port go. */
  predicate Legible(row: AllocationRow) {
    ParseProtocol(row.protocol).Ok? && 0 <= row.port < 65536
  }

  /** Between these ports, every protocol column that can be read holds what the repository itself writes. */
  ghost predicate Plain(t: Tables, lo: int, hi: int) {
    forall id :: id in t.allocations && Legible(t.allocations[id]) && lo <= t.allocations[id].port <= hi ==>
      CanonicalText(t.allocations[id].protocol)
  }

  predicate RowsOverlap(a: AllocationRow, b: AllocationRow) {
    && a.port == b.port
    && ParseProtocol(a.protocol).Ok? && ParseProtocol(b.protocol).Ok?
    && Conflict(ParseProtocol(a.protocol).value, ParseProtocol(b.protocol).value)
  }

  /** Per port, at most one row covers Tcp and at most one covers Udp. */
  ghost predicate OverlapFree(t: Tables) {
    forall x, y :: x in t.allocations && y in t.allocations && x != y ==>
      !RowsOverlap(t.allocations[x], t.allocations[y])
  }

  /** The unique index on the protocol text and the port. */
  ghost predicate UniqueIndex(t: Tables) {
    forall x, y :: x in t.allocations && y in t.allocations && x != y ==>
      t.allocations[x].protocol != t.allocations[y].protocol || t.allocations[x].port != t.allocations[y].port
  }

  /** The index alone lets a port be taken twice for one protocol. */
  lemma IndexIsNotEnough() returns (t: Tables)
    ensures UniqueIndex(t) && Plain(t, 0, 65535) && !OverlapFree(t)
  {
    var x, y := AllocationRow("tcp", 10000, 0, None, 0, 0), AllocationRow("both", 10000, 0, None, 0, 0);
    t := Tables(map["x" := x, "y" := y], map[]);
    ProtocolRoundTrip(Tcp);
    ProtocolRoundTrip(Both);
    assert RowsOverlap(t.allocations["x"], t.allocations["y"]);
  }
}
