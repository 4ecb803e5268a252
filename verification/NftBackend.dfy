/** Building the ruleset of one batch: the loops of the libnftnl backend. */
module NftBackend {
  import opened Model
  import opened NftCompiler

  /** An anonymous constant map under construction. */
  class PortMap {
    const id: nat
    const dataType: nat
    const dataLen: nat
    var elements: Elements

    constructor (id: nat, dataType: nat, dataLen: nat)
      ensures this.id == id && this.dataType == dataType && this.dataLen == dataLen && elements == []
    {
      this.id, this.dataType, this.dataLen, elements := id, dataType, dataLen, [];
    }

    method AddElement(port: Port, data: seq<Byte>)
      modifies this
      ensures elements == old(elements) + [(PortBytes(port), data)]
    {
      elements := elements + [(PortBytes(port), data)];
    }
  }

  method FilterGroup(rules: seq<DnatRule>, ipv6: bool, protocol: Protocol) returns (group: seq<DnatRule>)
    ensures group == Group(rules, ipv6, protocol)
  {
    group := [];
    for i := 0 to |rules|
      invariant group + Group(rules[i..], ipv6, protocol) == Group(rules, ipv6, protocol)
    {
      assert rules[i..][0] == rules[i] && rules[i..][1..] == rules[i + 1..];
      if InGroup(rules[i], ipv6, protocol) {
        group := group + [rules[i]];
      }
    }
  }

  /** Fill both maps from a group, the first rule for a port winning. */
  method FillMaps(group: seq<DnatRule>, addresses: PortMap, ports: PortMap)
    requires addresses != ports && addresses.elements == [] && ports.elements == []
    modifies addresses, ports
    ensures addresses.elements == AddressElements(group, {}) && ports.elements == PortElements(group, {})
  {
    var seen: set<Port> := {};
    for i := 0 to |group|
      invariant addresses.elements + AddressElements(group[i..], seen) == AddressElements(group, {})
      invariant ports.elements + PortElements(group[i..], seen) == PortElements(group, {})
    {
      assert group[i..][0] == group[i] && group[i..][1..] == group[i + 1..];
      if group[i].inPort !in seen {
        seen := seen + {group[i].inPort};
        addresses.AddElement(group[i].inPort, group[i].outHost.octets);
        ports.AddElement(group[i].inPort, PortBytes(group[i].outPort));
      }
    }
  }

  /** What has been built so far, followed by what the remaining groups will add. */
  ghost function Followed(sets: map<nat, MapDef>, programs: seq<seq<Expr>>, rest: Ruleset): Ruleset {
    Ruleset(sets + rest.sets, programs + rest.programs)
  }

  lemma FollowedByGroup(sets: map<nat, MapDef>, programs: seq<seq<Expr>>, id: nat, a: MapDef, q: MapDef,
                        program: seq<Expr>, rest: Ruleset)
    ensures Followed(sets, programs, Ruleset(map[id := a, id + 1 := q] + rest.sets, [program] + rest.programs))
            == Followed(sets[id := a][id + 1 := q], programs + [program], rest)
  {
    assert sets + (map[id := a, id + 1 := q] + rest.sets) == sets[id := a][id + 1 := q] + rest.sets;
    assert programs + ([program] + rest.programs) == (programs + [program]) + rest.programs;
  }

  /** One turn of the nested loops: nothing for an empty group, else two maps and a program. */
  method AddGroup(rules: seq<DnatRule>, ipv6: bool, protocol: Protocol, ghost k: nat, id: nat,
                  sets: map<nat, MapDef>, programs: seq<seq<Expr>>)
    returns (id': nat, sets': map<nat, MapDef>, programs': seq<seq<Expr>>)
    requires k < 4 && ipv6 == (k >= 2) && protocol == TransportAt(k)
    ensures Followed(sets', programs', CompileFrom(rules, k + 1, id'))
            == Followed(sets, programs, CompileFrom(rules, k, id))
  {
    var group := FilterGroup(rules, ipv6, protocol);
    if group == [] {
      return id, sets, programs;
    }
    var addresses := new PortMap(id, if ipv6 then 8 else 7, if ipv6 then 16 else 4);
    var ports := new PortMap(id + 1, 13, 2);
    FillMaps(group, addresses, ports);
    sets' := sets[id := MapDef(addresses.dataType, addresses.dataLen, addresses.elements)]
                 [id + 1 := MapDef(ports.dataType, ports.dataLen, ports.elements)];
    programs' := programs + [Exprs(ipv6, protocol, addresses.id, ports.id)];
    id' := id + 2;
    FollowedByGroup(sets, programs, id, AddressDef(rules, k), PortDef(rules, k), ProgramAt(k, id),
                    CompileFrom(rules, k + 1, id'));
  }

  lemma CompileCorrectForAll(rules: seq<DnatRule>)
    ensures forall p :: Dispatch(Compile(rules), p) == FirstMatch(rules, p)
    ensures |Compile(rules).programs| <= 4
  {
    forall p ensures Dispatch(Compile(rules), p) == FirstMatch(rules, p) {
      CompileCorrect(rules, p);
    }
    CompileCorrect(rules, Packet(0, 0, [], 0));
  }

  /** The inner loop: Tcp, then Udp. */
  method AddFamily(rules: seq<DnatRule>, ipv6: bool, ghost k: nat, id: nat,
                   sets: map<nat, MapDef>, programs: seq<seq<Expr>>)
    returns (id': nat, sets': map<nat, MapDef>, programs': seq<seq<Expr>>)
    requires k == if ipv6 then 2 else 0
    ensures Followed(sets', programs', CompileFrom(rules, k + 2, id'))
            == Followed(sets, programs, CompileFrom(rules, k, id))
  {
    id', sets', programs' := id, sets, programs;
    ghost var whole, j := Followed(sets, programs, CompileFrom(rules, k, id)), k;
    for transport := 0 to 2
      invariant j == k + transport && Followed(sets', programs', CompileFrom(rules, j, id')) == whole
    {
      id', sets', programs' := AddGroup(rules, ipv6, if transport == 0 then Tcp else Udp, j, id', sets', programs');
      j := j + 1;
    }
  }

  lemma NothingBefore(whole: Ruleset)
    ensures Followed(map[], [], whole) == whole
  {
    assert map[] + whole.sets == whole.sets && [] + whole.programs == whole.programs;
  }

  lemma NothingAfter(rules: seq<DnatRule>, k: nat, id: nat, ruleset: Ruleset)
    requires k >= 4
    ensures Followed(ruleset.sets, ruleset.programs, CompileFrom(rules, k, id)) == ruleset
  {
    assert ruleset.sets + map[] == ruleset.sets && ruleset.programs + [] == ruleset.programs;
  }

  /** The outer loop: IPv4, then IPv6, numbering the maps from `firstId`. */
  method BuildRuleset(rules: seq<DnatRule>, firstId: nat, ghost start: nat) returns (ruleset: Ruleset)
    requires start == 0
    ensures ruleset == CompileFrom(rules, start, firstId)
  {
    var sets: map<nat, MapDef>, programs: seq<seq<Expr>> := map[], [];
    var id := firstId;
    ghost var k, whole := start, CompileFrom(rules, start, firstId);
    NothingBefore(whole);
    for family := 0 to 2
      invariant k == 2 * family && Followed(sets, programs, CompileFrom(rules, k, id)) == whole
    {
      id, sets, programs := AddFamily(rules, family == 1, k, id, sets, programs);
      k := k + 2;
    }
    ruleset := Ruleset(sets, programs);
    NothingAfter(rules, k, id, ruleset);
  }

  /** Replacing the ruleset installs programs that treat every packet as the rule list does. */
  method ReplaceRuleset(rules: seq<DnatRule>) returns (ruleset: Ruleset)
    ensures ruleset == Compile(rules)
    ensures forall p :: Dispatch(ruleset, p) == FirstMatch(rules, p)
    ensures |ruleset.programs| <= 4
  {
    ruleset := BuildRuleset(rules, 1, 0);
    CompileCorrectForAll(rules);
  }

  // ------------------------------------------------- what the kernel will take

  ghost predicate DistinctKeys(e: Elements) {
    forall i, j :: 0 <= i < j < |e| ==> e[i].0 != e[j].0
  }

  /** Every key is a port outside `seen` and every datum has this length. */
  ghost predicate Fits(e: Elements, seen: set<Port>, len: nat) {
    forall i :: 0 <= i < |e| ==> |e[i].1| == len && |e[i].0| == 2 && PortFrom(e[i].0) !in seen
  }

  /** The kernel takes a constant map only with distinct keys and data of the declared length. */
  ghost predicate Acceptable(def: MapDef) {
    DistinctKeys(def.elements) && Fits(def.elements, {}, def.dataLen)
  }

  lemma ConsFits(e: Elements, seen: set<Port>, port: Port, data: seq<Byte>)
    requires port !in seen && Fits(e, seen + {port}, |data|) && DistinctKeys(e)
    ensures Fits([(PortBytes(port), data)] + e, seen, |data|) && DistinctKeys([(PortBytes(port), data)] + e)
  {
    PortRoundTrip(port);
  }

  lemma {:induction false} ElementsFit(group: seq<DnatRule>, seen: set<Port>, len: nat)
    requires forall i :: 0 <= i < |group| ==> |group[i].outHost.octets| == len
    ensures Fits(AddressElements(group, seen), seen, len) && DistinctKeys(AddressElements(group, seen))
    ensures Fits(PortElements(group, seen), seen, 2) && DistinctKeys(PortElements(group, seen))
  {
    if group != [] {
      var first := group[0];
      if first.inPort in seen {
        ElementsFit(group[1..], seen, len);
      } else {
        var seen' := seen + {first.inPort};
        ElementsFit(group[1..], seen', len);
        ConsFits(AddressElements(group[1..], seen'), seen, first.inPort, first.outHost.octets);
        ConsFits(PortElements(group[1..], seen'), seen, first.inPort, PortBytes(first.outPort));
      }
    }
  }

  lemma {:induction false} GroupFromRules(rules: seq<DnatRule>, ipv6: bool, protocol: Protocol)
    requires forall r :: r in rules ==> r.outHost.WellFormed()
    ensures forall r :: r in Group(rules, ipv6, protocol) ==> r.outHost.WellFormed()
  {
    if rules != [] { GroupFromRules(rules[1..], ipv6, protocol); }
  }

  lemma DefsAcceptable(rules: seq<DnatRule>, k: nat)
    requires forall r :: r in rules ==> r.outHost.WellFormed()
    ensures Acceptable(AddressDef(rules, k)) && Acceptable(PortDef(rules, k))
  {
    var group := GroupAt(rules, k);
    GroupFromRules(rules, k >= 2, TransportAt(k));
    forall i | 0 <= i < |group| ensures |group[i].outHost.octets| == if k >= 2 then 16 else 4 {
      assert group[i] in group;
    }
    ElementsFit(group, {}, if k >= 2 then 16 else 4);
  }

  ghost predicate AllAcceptable(sets: map<nat, MapDef>) {
    forall i :: i in sets ==> Acceptable(sets[i])
  }

  lemma JoinAcceptable(sets: map<nat, MapDef>, id: nat, a: MapDef, q: MapDef)
    requires AllAcceptable(sets) && Acceptable(a) && Acceptable(q)
    ensures AllAcceptable(map[id := a, id + 1 := q] + sets)
  {
  }

  /** Duplicate ports in the rule list never reach the kernel as duplicate map keys. */
  lemma {:induction false} MapsAcceptable(rules: seq<DnatRule>, k: nat, id: nat)
    requires forall r :: r in rules ==> r.outHost.WellFormed()
    ensures AllAcceptable(CompileFrom(rules, k, id).sets)
    decreases 4 - k
  {
    if k < 4 {
      if GroupAt(rules, k) == [] {
        MapsAcceptable(rules, k + 1, id);
      } else {
        MapsAcceptable(rules, k + 1, id + 2);
        DefsAcceptable(rules, k);
        JoinAcceptable(CompileFrom(rules, k + 1, id + 2).sets, id, AddressDef(rules, k), PortDef(rules, k));
      }
    }
  }
}
