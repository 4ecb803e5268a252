/** From stored allocations to the DNAT rule list, and what that list does to a packet. */
module NetlinkRules {
  import opened Model
  import opened NftCompiler
  import IdOrder

  /** How host strings are read and addresses are written; any syntax will do. */
  datatype AddrSyntax = AddrSyntax(parse: string -> Option<IpAddr>, show: IpAddr -> string)

  type Allocations = map<string, Allocation>

  function BoundTarget(syntax: AddrSyntax, a: Allocation): Option<(IpAddr, Port)> {
    if a.host.None? then None
    else if syntax.parse(a.host.value).None? then None
    else if a.targetPort.None? then None
    else Some((syntax.parse(a.host.value).value, a.targetPort.value))
  }

  function ProtocolsFor(protocol: Protocol): seq<Protocol> {
    if protocol == Both then [Tcp, Udp] else [protocol]
  }

  function RuleFor(a: Allocation, protocol: Protocol, target: (IpAddr, Port)): DnatRule {
    DnatRule(a.id, protocol, a.port, target.0, target.1)
  }

  function RulesOf(syntax: AddrSyntax, a: Allocation): seq<DnatRule> {
    match BoundTarget(syntax, a)
    case None => []
    case Some(target) =>
      var protocols := ProtocolsFor(a.protocol);
      seq(|protocols|, i requires 0 <= i < |protocols| => RuleFor(a, protocols[i], target))
  }

  function Flatten(syntax: AddrSyntax, allocations: seq<Allocation>): seq<DnatRule> {
    if allocations == [] then []
    else RulesOf(syntax, allocations[0]) + Flatten(syntax, allocations[1..])
  }

  ghost predicate Keyed(allocations: Allocations) {
    forall id :: id in allocations ==> allocations[id].id == id
  }

  ghost function Listed(allocations: Allocations, ids: seq<string>): seq<Allocation>
    requires forall id :: id in ids ==> id in allocations
  {
    seq(|ids|, i requires 0 <= i < |ids| => allocations[ids[i]])
  }

  /** Every allocation, in id order. */
  ghost function AllInOrder(allocations: Allocations): seq<Allocation> {
    IdOrder.SortedExact(allocations.Keys);
    Listed(allocations, IdOrder.Sorted(allocations.Keys))
  }

  /** The rule list of a set of allocations: those of each allocation, in the order of their ids. */
  ghost function Projection(syntax: AddrSyntax, allocations: Allocations): seq<DnatRule> {
    Flatten(syntax, AllInOrder(allocations))
  }

  // ----------------------------------------------------- computing the rule list

  function IdsOf(allocations: seq<Allocation>): (r: seq<string>)
    ensures |r| == |allocations|
  {
    seq(|allocations|, i requires 0 <= i < |allocations| => allocations[i].id)
  }

  predicate HasTarget(a: Allocation) {
    a.host.Some? && a.targetPort.Some?
  }

  function Filtered(allocations: seq<Allocation>): seq<Allocation> {
    if allocations == [] then []
    else (if HasTarget(allocations[0]) then [allocations[0]] else []) + Filtered(allocations[1..])
  }

  /** Leaving out allocations without host or target port leaves out no rule. */
  lemma {:induction false} FilterKeepsRules(syntax: AddrSyntax, allocations: seq<Allocation>)
    ensures Flatten(syntax, Filtered(allocations)) == Flatten(syntax, allocations)
  {
    if allocations != [] {
      FilterKeepsRules(syntax, allocations[1..]);
      if HasTarget(allocations[0]) {
        assert Filtered(allocations)[1..] == Filtered(allocations[1..]);
      } else {
        assert Filtered(allocations) == Filtered(allocations[1..]);
      }
    }
  }

  lemma {:induction false} FilteredExact(allocations: seq<Allocation>)
    requires IdOrder.InOrder(IdsOf(allocations))
    ensures IdOrder.InOrder(IdsOf(Filtered(allocations)))
    ensures forall a :: a in Filtered(allocations) <==> a in allocations && HasTarget(a)
  {
    if allocations != [] {
      var first, rest := allocations[0], allocations[1..];
      var ids := IdsOf(allocations);
      assert IdsOf(rest) == ids[1..];
      FilteredExact(rest);
      var kept := Filtered(rest);
      forall i | 0 <= i < |kept| ensures IdOrder.Leq(first.id, kept[i].id) && first.id != kept[i].id {
        assert kept[i] in kept;
        var j :| 0 <= j < |rest| && rest[j] == kept[i];
        assert ids[j + 1] == kept[i].id && IdOrder.Leq(ids[0], ids[j + 1]) && ids[0] != ids[j + 1];
      }
      if HasTarget(first) {
        assert Filtered(allocations) == [first] + kept;
        assert IdsOf([first] + kept) == [first.id] + IdsOf(kept);
      } else {
        assert Filtered(allocations) == kept;
      }
    }
  }

  /** Insert into a list kept in id order. */
  method InsertById(sorted: seq<Allocation>, a: Allocation) returns (r: seq<Allocation>)
    requires IdOrder.InOrder(IdsOf(sorted)) && a.id !in IdsOf(sorted)
    ensures IdOrder.InOrder(IdsOf(r))
    ensures forall x :: x in r <==> x in sorted || x == a
  {
    var k := 0;
    while k < |sorted| && IdOrder.Leq(sorted[k].id, a.id)
      invariant k <= |sorted|
      invariant forall i :: 0 <= i < k ==> IdOrder.Leq(sorted[i].id, a.id)
    {
      k := k + 1;
    }
    r := sorted[..k] + [a] + sorted[k..];
    ghost var ids := IdsOf(sorted);
    forall i | k <= i < |sorted| ensures IdOrder.Leq(a.id, sorted[i].id) {
      IdOrder.LeqTotal(sorted[k].id, a.id);
      if i > k {
        assert IdOrder.Leq(ids[k], ids[i]);
        IdOrder.LeqTransitive(a.id, sorted[k].id, sorted[i].id);
      }
    }
    forall i | 0 <= i < |sorted| ensures sorted[i].id != a.id { assert ids[i] in ids; }
    forall i, j | 0 <= i < j < |r| ensures IdOrder.Leq(r[i].id, r[j].id) && r[i].id != r[j].id {
      ghost var i', j' := if i < k then i else i - 1, if j < k then j else j - 1;
      if i != k && j != k { assert IdOrder.Leq(ids[i'], ids[j']) && ids[i'] != ids[j']; }
    }
  }

  /** Two lists in id order with the same members, told apart by their ids, are the same list. */
  lemma SameMembersSameList(xs: seq<Allocation>, ys: seq<Allocation>, allocations: Allocations)
    requires IdOrder.InOrder(IdsOf(xs)) && IdOrder.InOrder(IdsOf(ys))
    requires forall a :: a in xs <==> a in ys
    requires forall a :: a in xs ==> a.id in allocations && allocations[a.id] == a
    ensures xs == ys
  {
    var xIds, yIds := IdsOf(xs), IdsOf(ys);
    assert (set id | id in xIds) == (set id | id in yIds) by {
      forall id | id in xIds ensures id in yIds {
        var i :| 0 <= i < |xIds| && xIds[i] == id;
        assert xs[i] in ys;
        var j :| 0 <= j < |ys| && ys[j] == xs[i];
        assert yIds[j] == id;
      }
      forall id | id in yIds ensures id in xIds {
        var i :| 0 <= i < |yIds| && yIds[i] == id;
        assert ys[i] in xs;
        var j :| 0 <= j < |xs| && xs[j] == ys[i];
        assert xIds[j] == id;
      }
    }
    IdOrder.OrderUnique(xIds);
    IdOrder.OrderUnique(yIds);
    forall i | 0 <= i < |xs| ensures xs[i] == ys[i] {
      assert xs[i] in xs && ys[i] in ys && xIds[i] == yIds[i];
    }
  }

  lemma AllInOrderExact(allocations: Allocations)
    requires Keyed(allocations)
    ensures IdOrder.InOrder(IdsOf(AllInOrder(allocations)))
    ensures forall a :: a in AllInOrder(allocations) <==> a.id in allocations && allocations[a.id] == a
  {
    var ids, all := IdOrder.Sorted(allocations.Keys), AllInOrder(allocations);
    IdOrder.SortedExact(allocations.Keys);
    forall i | 0 <= i < |ids| ensures all[i].id == ids[i] { assert ids[i] in ids; }
    assert IdsOf(all) == ids;
    forall a: Allocation | a.id in allocations && allocations[a.id] == a ensures a in all {
      assert a.id in ids;
      var i :| 0 <= i < |ids| && ids[i] == a.id;
      assert all[i] == a;
    }
    forall a | a in all ensures a.id in allocations && allocations[a.id] == a {
      var i :| 0 <= i < |all| && all[i] == a;
      assert ids[i] in ids;
    }
  }

  /** Collect the allocations that have a target, in whatever order the table yields them, sorted by id. */
  method BoundById(allocations: Allocations) returns (bound: seq<Allocation>)
    requires Keyed(allocations)
    ensures IdOrder.InOrder(IdsOf(bound))
    ensures forall a :: a in bound <==> a.id in allocations && allocations[a.id] == a && HasTarget(a)
  {
    bound := [];
    var remaining := allocations.Keys;
    while remaining != {}
      invariant remaining <= allocations.Keys
      invariant IdOrder.InOrder(IdsOf(bound))
      invariant forall a :: a in bound <==>
                  a.id in allocations && a.id !in remaining && allocations[a.id] == a && HasTarget(a)
      decreases remaining
    {
      var id :| id in remaining;
      remaining := remaining - {id};
      if HasTarget(allocations[id]) {
        forall i | 0 <= i < |bound| ensures bound[i].id != id { assert bound[i] in bound; }
        bound := InsertById(bound, allocations[id]);
      }
    }
  }

  /** The filtered, sorted list carries the same rules as the whole table. */
  lemma BoundCarriesRules(syntax: AddrSyntax, allocations: Allocations, bound: seq<Allocation>)
    requires Keyed(allocations) && IdOrder.InOrder(IdsOf(bound))
    requires forall a :: a in bound <==> a.id in allocations && allocations[a.id] == a && HasTarget(a)
    ensures Flatten(syntax, bound) == Projection(syntax, allocations)
  {
    var all := AllInOrder(allocations);
    AllInOrderExact(allocations);
    FilteredExact(all);
    SameMembersSameList(bound, Filtered(all), allocations);
    FilterKeepsRules(syntax, all);
  }

  /** The inner loop: one rule per concrete protocol of a bound allocation. */
  method PushRules(syntax: AddrSyntax, a: Allocation, before: seq<DnatRule>) returns (rules: seq<DnatRule>)
    ensures rules == before + RulesOf(syntax, a)
  {
    rules := before;
    match BoundTarget(syntax, a)
    case None =>
    case Some(target) =>
      var protocols := ProtocolsFor(a.protocol);
      for j := 0 to |protocols|
        invariant rules == before + RulesOf(syntax, a)[..j]
      {
        rules := rules + [RuleFor(a, protocols[j], target)];
      }
  }

  /** One turn of the outer loop moves the next allocation's rules from what is left to what is done. */
  lemma NextRules(syntax: AddrSyntax, bound: seq<Allocation>, i: nat, before: seq<DnatRule>)
    requires i < |bound|
    ensures before + Flatten(syntax, bound[i..]) ==
            (before + RulesOf(syntax, bound[i])) + Flatten(syntax, bound[i + 1..])
  {
    var rest := bound[i..];
    assert rest[0] == bound[i] && rest[1..] == bound[i + 1..];
  }

  /** The outer loop: the rules of each listed allocation in turn. */
  method CollectRules(syntax: AddrSyntax, bound: seq<Allocation>) returns (rules: seq<DnatRule>)
    ensures rules == Flatten(syntax, bound)
  {
    rules := [];
    ghost var all := Flatten(syntax, bound);
    assert bound[0..] == bound;
    for i := 0 to |bound|
      invariant rules + Flatten(syntax, bound[i..]) == all
    {
      NextRules(syntax, bound, i, rules);
      rules := PushRules(syntax, bound[i], rules);
    }
  }

  method RulesForAllocations(syntax: AddrSyntax, allocations: Allocations) returns (rules: seq<DnatRule>)
    requires Keyed(allocations)
    ensures rules == Projection(syntax, allocations)
  {
    var bound := BoundById(allocations);
    rules := CollectRules(syntax, bound);
    BoundCarriesRules(syntax, allocations, bound);
  }

  // ------------------------------------------------------- end-to-end dispatch

  /** The allocation reserves the packet's destination port for the packet's protocol. */
  predicate CoversPacket(a: Allocation, p: Packet) {
    && |p.transport| >= 4 && PortFrom(p.transport[2..4]) == a.port
    && ((Covers(a.protocol, Tcp) && p.l4proto == IPPROTO_TCP) || (Covers(a.protocol, Udp) && p.l4proto == IPPROTO_UDP))
  }

  /** The allocation's host reads as this address and its target port is this one. */
  predicate BoundTo(syntax: AddrSyntax, a: Allocation, host: IpAddr, port: Port) {
    a.host.Some? && syntax.parse(a.host.value) == Some(host) && a.targetPort == Some(port)
  }

  /** The allocation covers the packet and is bound to this target, of the packet's family. */
  predicate Serves(syntax: AddrSyntax, a: Allocation, p: Packet, host: IpAddr, port: Port) {
    CoversPacket(a, p) && BoundTo(syntax, a, host, port) && p.nfproto == Family(host)
  }

  /** bound_target gives exactly what the allocation is bound to. */
  lemma BoundTargetExact(syntax: AddrSyntax, a: Allocation, host: IpAddr, port: Port)
    ensures BoundTarget(syntax, a) == Some((host, port)) <==> BoundTo(syntax, a, host, port)
  {
  }

  predicate Overlap(a: Allocation, b: Allocation) {
    && a.port == b.port
    && ((Covers(a.protocol, Tcp) && Covers(b.protocol, Tcp)) || (Covers(a.protocol, Udp) && Covers(b.protocol, Udp)))
  }

  ghost predicate OverlapFree(allocations: Allocations) {
    forall x, y :: x in allocations && y in allocations && x != y ==> !Overlap(allocations[x], allocations[y])
  }

  lemma {:induction false} FlattenMembers(syntax: AddrSyntax, list: seq<Allocation>, r: DnatRule)
    ensures r in Flatten(syntax, list) <==> exists a :: a in list && r in RulesOf(syntax, a)
  {
    if list != [] {
      FlattenMembers(syntax, list[1..], r);
      assert list == [list[0]] + list[1..];
      if r in RulesOf(syntax, list[0]) { assert list[0] in list; }
    }
  }

  /** A rule of an allocation matches a local packet exactly when the allocation serves the packet with it. */
  lemma RulesOfServes(syntax: AddrSyntax, a: Allocation, p: Packet, host: IpAddr, port: Port)
    requires p.daddrType == RTN_LOCAL
    ensures (exists r :: r in RulesOf(syntax, a) && Matches(r, p) && r.outHost == host && r.outPort == port)
            <==> Serves(syntax, a, p, host, port)
  {
    if Serves(syntax, a, p, host, port) {
      var i := if a.protocol == Both && p.l4proto == IPPROTO_UDP then 1 else 0;
      assert RulesOf(syntax, a)[i] in RulesOf(syntax, a);
    }
  }

  lemma {:induction false} FirstMatchSound(rules: seq<DnatRule>, p: Packet)
    ensures match FirstMatch(rules, p)
            case Dnat(host, port) => exists r :: r in rules && Matches(r, p) && r.outHost == host && r.outPort == port
            case NoMatch => forall r :: r in rules ==> !Matches(r, p)
  {
    if rules != [] {
      if Matches(rules[0], p) { assert rules[0] in rules; }
      else {
        FirstMatchSound(rules[1..], p);
        assert rules == [rules[0]] + rules[1..];
      }
    }
  }

  lemma ServersAreOne(syntax: AddrSyntax, allocations: Allocations, p: Packet, x: string, y: string,
                      host: IpAddr, port: Port, host': IpAddr, port': Port)
    requires OverlapFree(allocations) && x in allocations && y in allocations
    requires Serves(syntax, allocations[x], p, host, port) && Serves(syntax, allocations[y], p, host', port')
    ensures x == y && host == host' && port == port'
  {
    if x != y { assert Overlap(allocations[x], allocations[y]); }
  }

  /** A rule of the projection that matches belongs to an allocation that serves the packet, and back. */
  lemma ProjectionServes(syntax: AddrSyntax, allocations: Allocations, p: Packet, host: IpAddr, port: Port)
    requires Keyed(allocations) && p.daddrType == RTN_LOCAL
    ensures (exists r :: r in Projection(syntax, allocations) && Matches(r, p)
                         && r.outHost == host && r.outPort == port)
            <==> (exists id :: id in allocations && Serves(syntax, allocations[id], p, host, port))
  {
    var list := AllInOrder(allocations);
    AllInOrderExact(allocations);
    if r :| r in Projection(syntax, allocations) && Matches(r, p) && r.outHost == host && r.outPort == port {
      FlattenMembers(syntax, list, r);
      var a :| a in list && r in RulesOf(syntax, a);
      RulesOfServes(syntax, a, p, host, port);
      assert allocations[a.id] == a;
    }
    if id :| id in allocations && Serves(syntax, allocations[id], p, host, port) {
      RulesOfServes(syntax, allocations[id], p, host, port);
      var r :| r in RulesOf(syntax, allocations[id]) && Matches(r, p) && r.outHost == host && r.outPort == port;
      FlattenMembers(syntax, list, r);
      assert allocations[id] in list;
    }
  }

  /**
   End to end: with no overlapping allocations, the installed programs send a local packet to a
   target exactly when the one allocation covering it is bound to that target in the packet's family.
   */
  lemma DispatchExact(syntax: AddrSyntax, allocations: Allocations, p: Packet, host: IpAddr, port: Port)
    requires Keyed(allocations) && OverlapFree(allocations) && p.daddrType == RTN_LOCAL
    ensures Dispatch(Compile(Projection(syntax, allocations)), p) == Dnat(host, port)
            <==> exists id :: id in allocations && Serves(syntax, allocations[id], p, host, port)
  {
    var rules := Projection(syntax, allocations);
    CompileCorrect(rules, p);
    FirstMatchSound(rules, p);
    ProjectionServes(syntax, allocations, p, host, port);
    match FirstMatch(rules, p)
    case NoMatch =>
    case Dnat(host', port') =>
      ProjectionServes(syntax, allocations, p, host', port');
      if id :| id in allocations && Serves(syntax, allocations[id], p, host, port) {
        var id' :| id' in allocations && Serves(syntax, allocations[id'], p, host', port');
        ServersAreOne(syntax, allocations, p, id, id', host, port, host', port');
      }
  }

  /** A packet for a remote destination is never redirected. */
  lemma RemoteUntouched(syntax: AddrSyntax, allocations: Allocations, p: Packet)
    requires p.daddrType != RTN_LOCAL
    ensures Dispatch(Compile(Projection(syntax, allocations)), p) == NoMatch
  {
    CompileCorrect(Projection(syntax, allocations), p);
    FirstMatchSound(Projection(syntax, allocations), p);
  }
}
