/**
 The nftables backend as a small compiler: a first-match list of DNAT rules becomes at most four
 register programs that look the destination port up in two maps.
 */
module NftCompiler {
  import opened Model

  datatype DnatRule = DnatRule(allocationId: string, protocol: Protocol, inPort: Port, outHost: IpAddr, outPort: Port)

  /** What the chain sees of a packet: header fields as bytes and the FIB type of its destination. */
  datatype Packet = Packet(nfproto: Byte, l4proto: Byte, transport: seq<Byte>, daddrType: Byte)

  datatype Verdict = NoMatch | Dnat(host: IpAddr, port: Port)

  const NFPROTO_IPV4: Byte := 2
  const NFPROTO_IPV6: Byte := 10
  const IPPROTO_TCP: Byte := 6
  const IPPROTO_UDP: Byte := 17
  const RTN_LOCAL: Byte := 2

  function PortBytes(port: Port): (r: seq<Byte>)
    ensures |r| == 2
  {
    [(port / 256) as Byte, (port % 256) as Byte]
  }

  function PortFrom(bytes: seq<Byte>): Port
    requires |bytes| >= 2
  {
    (bytes[0] as int * 256 + bytes[1] as int) as Port
  }

  lemma PortRoundTrip(port: Port)
    ensures PortFrom(PortBytes(port)) == port
  {
  }

  lemma PortBytesRoundTrip(bytes: seq<Byte>)
    requires |bytes| == 2
    ensures PortBytes(PortFrom(bytes)) == bytes
  {
    var n := bytes[0] as int * 256 + bytes[1] as int;
    assert n / 256 == bytes[0] as int && n % 256 == bytes[1] as int;
  }

  function Family(ip: IpAddr): Byte {
    if ip.V6? then NFPROTO_IPV6 else NFPROTO_IPV4
  }

  // ------------------------------------------------------------ the rule list

  /** The linear reading of one rule: family, protocol, destination port and a local destination. */
  predicate Matches(rule: DnatRule, p: Packet) {
    && p.nfproto == Family(rule.outHost)
    && ((rule.protocol == Tcp && p.l4proto == IPPROTO_TCP) || (rule.protocol == Udp && p.l4proto == IPPROTO_UDP))
    && |p.transport| >= 4 && PortFrom(p.transport[2..4]) == rule.inPort
    && p.daddrType == RTN_LOCAL
  }

  function FirstMatch(rules: seq<DnatRule>, p: Packet): Verdict {
    if rules == [] then NoMatch
    else if Matches(rules[0], p) then Dnat(rules[0].outHost, rules[0].outPort)
    else FirstMatch(rules[1..], p)
  }

  // ------------------------------------------------------ the register machine

  datatype Register = Reg1 | Reg2 | Reg3 | Reg4

  datatype MetaKey = NfProto | L4Proto

  datatype Expr =
    | LoadMeta(key: MetaKey, dreg: Register)
    | LoadPayload(offset: nat, len: nat, dreg: Register)
    | FibDaddrType(dreg: Register)
    | Cmp(sreg: Register, data: seq<Byte>)
    | MapLookup(setId: nat, sreg: Register, dreg: Register)
    | Counter
    | Nat(ipv6: bool, ipReg: Register, portReg: Register)

  type Elements = seq<(seq<Byte>, seq<Byte>)>

  datatype MapDef = MapDef(dataType: nat, dataLen: nat, elements: Elements)

  datatype Ruleset = Ruleset(sets: map<nat, MapDef>, programs: seq<seq<Expr>>)

  type Registers = map<Register, seq<Byte>>

  function Find(elements: Elements, key: seq<Byte>): Option<seq<Byte>> {
    if elements == [] then None
    else if elements[0].0 == key then Some(elements[0].1)
    else Find(elements[1..], key)
  }

  datatype Progress = Continue(regs: Registers) | Break | Done(verdict: Verdict)

  function Step(sets: map<nat, MapDef>, e: Expr, regs: Registers, p: Packet): Progress {
    match e
    case LoadMeta(NfProto, dreg) => Continue(regs[dreg := [p.nfproto]])
    case LoadMeta(L4Proto, dreg) => Continue(regs[dreg := [p.l4proto]])
    case LoadPayload(offset, len, dreg) =>
      if offset + len <= |p.transport| then Continue(regs[dreg := p.transport[offset..offset + len]]) else Break
    case FibDaddrType(dreg) => Continue(regs[dreg := [p.daddrType, 0, 0, 0]])
    case Cmp(sreg, data) => if sreg in regs && data <= regs[sreg] then Continue(regs) else Break
    case MapLookup(setId, sreg, dreg) =>
      if sreg !in regs || setId !in sets then Break else
      (match Find(sets[setId].elements, regs[sreg])
       case Some(data) => Continue(regs[dreg := data])
       case None => Break)
    case Counter => Continue(regs)
    case Nat(ipv6, ipReg, portReg) =>
      if ipReg in regs && portReg in regs && |regs[portReg]| >= 2 then
        Done(Dnat(if ipv6 then V6(regs[ipReg]) else V4(regs[ipReg]), PortFrom(regs[portReg])))
      else Break
  }

  function RunProgram(sets: map<nat, MapDef>, program: seq<Expr>, regs: Registers, p: Packet): Verdict {
    if program == [] then NoMatch
    else match Step(sets, program[0], regs, p)
      case Continue(regs') => RunProgram(sets, program[1..], regs', p)
      case Break => NoMatch
      case Done(verdict) => verdict
  }

  /** The chain tries its rules in order; registers are fresh for each. */
  function RunChain(sets: map<nat, MapDef>, programs: seq<seq<Expr>>, p: Packet): Verdict {
    if programs == [] then NoMatch
    else
      var verdict := RunProgram(sets, programs[0], map[], p);
      if verdict.NoMatch? then RunChain(sets, programs[1..], p) else verdict
  }

  function Dispatch(ruleset: Ruleset, p: Packet): Verdict {
    RunChain(ruleset.sets, ruleset.programs, p)
  }

  // ------------------------------------------------------------- the compiler

  const REG_PROTOCOL := Reg1
  const REG_PORT := Reg2
  const REG_FIB_TYPE := Reg3
  const REG_DNAT_ADDR := Reg1
  const REG_DNAT_PORT := Reg2

  predicate InGroup(rule: DnatRule, ipv6: bool, protocol: Protocol) {
    rule.outHost.V6? == ipv6 && rule.protocol == protocol
  }

  function Group(rules: seq<DnatRule>, ipv6: bool, protocol: Protocol): (r: seq<DnatRule>)
    ensures forall i :: 0 <= i < |r| ==> InGroup(r[i], ipv6, protocol)
  {
    if rules == [] then []
    else (if InGroup(rules[0], ipv6, protocol) then [rules[0]] else []) + Group(rules[1..], ipv6, protocol)
  }

  /** The elements a group contributes, skipping ports already seen. */
  function AddressElements(group: seq<DnatRule>, seen: set<Port>): Elements {
    if group == [] then []
    else if group[0].inPort in seen then AddressElements(group[1..], seen)
    else [(PortBytes(group[0].inPort), group[0].outHost.octets)]
         + AddressElements(group[1..], seen + {group[0].inPort})
  }

  function PortElements(group: seq<DnatRule>, seen: set<Port>): Elements {
    if group == [] then []
    else if group[0].inPort in seen then PortElements(group[1..], seen)
    else [(PortBytes(group[0].inPort), PortBytes(group[0].outPort))]
         + PortElements(group[1..], seen + {group[0].inPort})
  }

  function Exprs(ipv6: bool, protocol: Protocol, addresses: nat, ports: nat): seq<Expr> {
    [ LoadMeta(NfProto, REG_PROTOCOL),
      Cmp(REG_PROTOCOL, [if ipv6 then NFPROTO_IPV6 else NFPROTO_IPV4]),
      LoadMeta(L4Proto, REG_PROTOCOL),
      Cmp(REG_PROTOCOL, [if protocol == Tcp then IPPROTO_TCP else IPPROTO_UDP]),
      LoadPayload(2, 2, REG_PORT),
      FibDaddrType(REG_FIB_TYPE),
      Cmp(REG_FIB_TYPE, [RTN_LOCAL]),
      MapLookup(addresses, REG_PORT, REG_DNAT_ADDR),
      MapLookup(ports, REG_PORT, REG_DNAT_PORT),
      Counter,
      Nat(ipv6, REG_DNAT_ADDR, REG_DNAT_PORT) ]
  }

  /** The nested loops visit Tcp before Udp within each family. */
  function TransportAt(k: nat): Protocol {
    if k == 0 || k == 2 then Tcp else Udp
  }

  /** The group the nested loops visit at position k of four. */
  function GroupAt(rules: seq<DnatRule>, k: nat): seq<DnatRule> {
    Group(rules, k >= 2, TransportAt(k))
  }

  /** The address map, the port map and the program of one group. */
  function AddressDef(rules: seq<DnatRule>, k: nat): MapDef {
    MapDef(if k >= 2 then 8 else 7, if k >= 2 then 16 else 4, AddressElements(GroupAt(rules, k), {}))
  }

  function PortDef(rules: seq<DnatRule>, k: nat): MapDef {
    MapDef(13, 2, PortElements(GroupAt(rules, k), {}))
  }

  function ProgramAt(k: nat, id: nat): seq<Expr> {
    Exprs(k >= 2, TransportAt(k), id, id + 1)
  }

  /** The sets and programs of the groups from position k on, with set ids from id on. */
  function CompileFrom(rules: seq<DnatRule>, k: nat, id: nat): Ruleset
    decreases 4 - k
  {
    if k >= 4 then Ruleset(map[], [])
    else
      if GroupAt(rules, k) == [] then CompileFrom(rules, k + 1, id)
      else
        var rest := CompileFrom(rules, k + 1, id + 2);
        Ruleset(map[id := AddressDef(rules, k), id + 1 := PortDef(rules, k)] + rest.sets,
                [ProgramAt(k, id)] + rest.programs)
  }

  function Compile(rules: seq<DnatRule>): Ruleset {
    CompileFrom(rules, 0, 1)
  }

  // -------------------------------------------------------------- correctness

  function FirstForPort(group: seq<DnatRule>, port: Port): Option<DnatRule> {
    if group == [] then None
    else if group[0].inPort == port then Some(group[0])
    else FirstForPort(group[1..], port)
  }

  /** Both maps answer a port with the target of the same rule: the group's first for that port. */
  lemma {:induction false} MapsAgree(group: seq<DnatRule>, seen: set<Port>, port: Port)
    requires port !in seen
    ensures Find(AddressElements(group, seen), PortBytes(port)) ==
            (match FirstForPort(group, port) case Some(r) => Some(r.outHost.octets) case None => None)
    ensures Find(PortElements(group, seen), PortBytes(port)) ==
            (match FirstForPort(group, port) case Some(r) => Some(PortBytes(r.outPort)) case None => None)
  {
    if group != [] {
      PortRoundTrip(port);
      PortRoundTrip(group[0].inPort);
      if group[0].inPort in seen {
        MapsAgree(group[1..], seen, port);
      } else if group[0].inPort != port {
        MapsAgree(group[1..], seen + {group[0].inPort}, port);
        var a, q := AddressElements(group, seen), PortElements(group, seen);
        assert a[1..] == AddressElements(group[1..], seen + {group[0].inPort});
        assert q[1..] == PortElements(group[1..], seen + {group[0].inPort});
      }
    }
  }

  /** The header tests a program makes before its lookups. */
  predicate Eligible(p: Packet, ipv6: bool, protocol: Protocol) {
    && p.nfproto == (if ipv6 then NFPROTO_IPV6 else NFPROTO_IPV4)
    && p.l4proto == (if protocol == Tcp then IPPROTO_TCP else IPPROTO_UDP)
    && |p.transport| >= 4
    && p.daddrType == RTN_LOCAL
  }

  function TargetOf(rule: Option<DnatRule>): Verdict {
    match rule
    case Some(r) => Dnat(r.outHost, r.outPort)
    case None => NoMatch
  }

  lemma RunUnfold(sets: map<nat, MapDef>, program: seq<Expr>, i: nat, regs: Registers, p: Packet)
    requires i < |program|
    ensures RunProgram(sets, program[i..], regs, p) ==
            match Step(sets, program[i], regs, p)
            case Continue(regs') => RunProgram(sets, program[i + 1..], regs', p)
            case Break => NoMatch
            case Done(verdict) => verdict
  {
    assert program[i..][1..] == program[i + 1..];
  }

  /** The expressions of a program, one by one. */
  ghost predicate IsProgram(program: seq<Expr>, ipv6: bool, protocol: Protocol, a: nat, q: nat) {
    && |program| == 11
    && program[0] == LoadMeta(NfProto, REG_PROTOCOL)
    && program[1] == Cmp(REG_PROTOCOL, [if ipv6 then NFPROTO_IPV6 else NFPROTO_IPV4])
    && program[2] == LoadMeta(L4Proto, REG_PROTOCOL)
    && program[3] == Cmp(REG_PROTOCOL, [if protocol == Tcp then IPPROTO_TCP else IPPROTO_UDP])
    && program[4] == LoadPayload(2, 2, REG_PORT)
    && program[5] == FibDaddrType(REG_FIB_TYPE)
    && program[6] == Cmp(REG_FIB_TYPE, [RTN_LOCAL])
    && program[7] == MapLookup(a, REG_PORT, REG_DNAT_ADDR)
    && program[8] == MapLookup(q, REG_PORT, REG_DNAT_PORT)
    && program[9] == Counter
    && program[10] == Nat(ipv6, REG_DNAT_ADDR, REG_DNAT_PORT)
  }

  /** A one-byte comparison looks at the register's first byte. */
  lemma OneByte(x: Byte, bytes: seq<Byte>)
    requires |bytes| >= 1
    ensures [x] <= bytes <==> bytes[0] == x
  {
    if bytes[0] == x { assert bytes[..1] == [x]; }
  }

  /** The family and transport protocol tests. */
  lemma ProtocolTests(sets: map<nat, MapDef>, program: seq<Expr>, ipv6: bool, protocol: Protocol, a: nat, q: nat,
                      p: Packet)
    requires IsProgram(program, ipv6, protocol, a, q)
    ensures RunProgram(sets, program[0..], map[], p) ==
            if p.nfproto == (if ipv6 then NFPROTO_IPV6 else NFPROTO_IPV4)
               && p.l4proto == (if protocol == Tcp then IPPROTO_TCP else IPPROTO_UDP)
            then RunProgram(sets, program[4..], map[REG_PROTOCOL := [p.l4proto]], p)
            else NoMatch
  {
    var r1: Registers := map[REG_PROTOCOL := [p.nfproto]];
    var r2: Registers := map[REG_PROTOCOL := [p.l4proto]];
    RunUnfold(sets, program, 0, map[], p);
    RunUnfold(sets, program, 1, r1, p);
    OneByte(if ipv6 then NFPROTO_IPV6 else NFPROTO_IPV4, [p.nfproto]);
    assert r1[REG_PROTOCOL := [p.l4proto]] == r2;
    OneByte(if protocol == Tcp then IPPROTO_TCP else IPPROTO_UDP, [p.l4proto]);
    RunUnfold(sets, program, 2, r1, p);
    RunUnfold(sets, program, 3, r2, p);
  }

  /** The destination port goes to its register; the FIB result goes to another. */
  lemma PortAndFib(sets: map<nat, MapDef>, program: seq<Expr>, ipv6: bool, protocol: Protocol, a: nat, q: nat,
                   regs: Registers, p: Packet)
    requires IsProgram(program, ipv6, protocol, a, q)
    ensures RunProgram(sets, program[4..], regs, p) ==
            if |p.transport| >= 4 && p.daddrType == RTN_LOCAL
            then RunProgram(sets, program[7..],
                            regs[REG_PORT := p.transport[2..4]][REG_FIB_TYPE := [p.daddrType, 0, 0, 0]], p)
            else NoMatch
  {
    RunUnfold(sets, program, 4, regs, p);
    if |p.transport| >= 4 {
      var r1 := regs[REG_PORT := p.transport[2..4]];
      var r2 := r1[REG_FIB_TYPE := [p.daddrType, 0, 0, 0]];
      RunUnfold(sets, program, 5, r1, p);
      OneByte(RTN_LOCAL, [p.daddrType, 0, 0, 0]);
      RunUnfold(sets, program, 6, r2, p);
    }
  }

  /** The two lookups, in this order, and the DNAT statement. */
  lemma LookupsAndNat(sets: map<nat, MapDef>, program: seq<Expr>, ipv6: bool, protocol: Protocol, a: nat, q: nat,
                      regs: Registers, p: Packet, rule: Option<DnatRule>)
    requires IsProgram(program, ipv6, protocol, a, q)
    requires REG_PORT in regs && a in sets && q in sets
    requires Find(sets[a].elements, regs[REG_PORT]) ==
             (match rule case Some(r) => Some(r.outHost.octets) case None => None)
    requires Find(sets[q].elements, regs[REG_PORT]) ==
             (match rule case Some(r) => Some(PortBytes(r.outPort)) case None => None)
    requires rule.Some? ==> rule.value.outHost.V6? == ipv6
    ensures RunProgram(sets, program[7..], regs, p) == TargetOf(rule)
  {
    RunUnfold(sets, program, 7, regs, p);
    if rule.Some? {
      var r1 := regs[REG_DNAT_ADDR := rule.value.outHost.octets];
      var r2 := r1[REG_DNAT_PORT := PortBytes(rule.value.outPort)];
      RunUnfold(sets, program, 8, r1, p);
      RunUnfold(sets, program, 9, r2, p);
      RunUnfold(sets, program, 10, r2, p);
      PortRoundTrip(rule.value.outPort);
    }
  }

  lemma {:induction false} FirstForPortInGroup(group: seq<DnatRule>, port: Port)
    ensures FirstForPort(group, port).Some? ==> FirstForPort(group, port).value in group
  {
    if group != [] { FirstForPortInGroup(group[1..], port); }
  }

  /** One program is its group read as a first-match list. */
  lemma ProgramCorrect(sets: map<nat, MapDef>, rules: seq<DnatRule>, ipv6: bool, protocol: Protocol, a: nat,
                       q: nat, p: Packet)
    requires protocol != Both && a in sets && q in sets
    requires sets[a].elements == AddressElements(Group(rules, ipv6, protocol), {})
    requires sets[q].elements == PortElements(Group(rules, ipv6, protocol), {})
    ensures RunProgram(sets, Exprs(ipv6, protocol, a, q), map[], p) ==
            if Eligible(p, ipv6, protocol) then FirstMatch(rules, p) else NoMatch
  {
    var program := Exprs(ipv6, protocol, a, q);
    assert program[0..] == program;
    ProtocolTests(sets, program, ipv6, protocol, a, q, p);
    PortAndFib(sets, program, ipv6, protocol, a, q, map[REG_PROTOCOL := [p.l4proto]], p);
    if Eligible(p, ipv6, protocol) {
      var group := Group(rules, ipv6, protocol);
      var port := PortFrom(p.transport[2..4]);
      PortBytesRoundTrip(p.transport[2..4]);
      MapsAgree(group, {}, port);
      FirstForPortInGroup(group, port);
      var loaded := map[REG_PROTOCOL := [p.l4proto]][REG_PORT := p.transport[2..4]];
      var regs := loaded[REG_FIB_TYPE := [p.daddrType, 0, 0, 0]];
      LookupsAndNat(sets, program, ipv6, protocol, a, q, regs, p, FirstForPort(group, port));
      GroupFirstMatch(rules, ipv6, protocol, p);
    }
  }

  /** For an eligible packet, only the rules of its own group matter. */
  lemma {:induction false} GroupFirstMatch(rules: seq<DnatRule>, ipv6: bool, protocol: Protocol, p: Packet)
    requires protocol != Both && Eligible(p, ipv6, protocol)
    ensures FirstMatch(rules, p) == TargetOf(FirstForPort(Group(rules, ipv6, protocol), PortFrom(p.transport[2..4])))
  {
    if rules != [] {
      GroupFirstMatch(rules[1..], ipv6, protocol, p);
      if InGroup(rules[0], ipv6, protocol) {
        assert Group(rules, ipv6, protocol)[1..] == Group(rules[1..], ipv6, protocol);
      } else {
        assert Group(rules, ipv6, protocol) == Group(rules[1..], ipv6, protocol);
      }
    }
  }

  /** Some group from position k on can serve the packet. */
  predicate ServedFrom(p: Packet, k: nat)
    decreases 4 - k
  {
    k < 4 && (Eligible(p, k >= 2, TransportAt(k)) || ServedFrom(p, k + 1))
  }

  /** A group without rules serves nothing. */
  lemma {:induction false} EmptyGroup(rules: seq<DnatRule>, ipv6: bool, protocol: Protocol, p: Packet)
    requires protocol != Both && Eligible(p, ipv6, protocol) && Group(rules, ipv6, protocol) == []
    ensures FirstMatch(rules, p) == NoMatch
  {
    GroupFirstMatch(rules, ipv6, protocol, p);
  }

  ghost predicate Extends(sets: map<nat, MapDef>, part: map<nat, MapDef>) {
    forall id :: id in part ==> id in sets && sets[id] == part[id]
  }

  lemma {:induction false} IdsFrom(rules: seq<DnatRule>, k: nat, id: nat)
    ensures forall i :: i in CompileFrom(rules, k, id).sets ==> i >= id
    decreases 4 - k
  {
    if k < 4 {
      IdsFrom(rules, k + 1, id);
      IdsFrom(rules, k + 1, id + 2);
    }
  }

  /** What position k of the nested loops adds in front of the rest. */
  lemma CompileUnfold(rules: seq<DnatRule>, k: nat, id: nat)
    requires k < 4 && GroupAt(rules, k) != []
    ensures var whole := CompileFrom(rules, k, id);
            var rest := CompileFrom(rules, k + 1, id + 2);
            && id in whole.sets && whole.sets[id] == AddressDef(rules, k)
            && id + 1 in whole.sets && whole.sets[id + 1] == PortDef(rules, k)
            && Extends(whole.sets, rest.sets)
            && |whole.programs| == 1 + |rest.programs| && whole.programs[1..] == rest.programs
            && whole.programs[0] == ProgramAt(k, id)
  {
    IdsFrom(rules, k + 1, id + 2);
    var rest := CompileFrom(rules, k + 1, id + 2);
    assert id !in rest.sets && id + 1 !in rest.sets;
  }

  lemma ChainCons(sets: map<nat, MapDef>, programs: seq<seq<Expr>>, p: Packet, here: bool, later: bool,
                  verdict: Verdict)
    requires programs != []
    requires RunProgram(sets, programs[0], map[], p) == if here then verdict else NoMatch
    requires RunChain(sets, programs[1..], p) == if later then verdict else NoMatch
    ensures RunChain(sets, programs, p) == if here || later then verdict else NoMatch
  {
  }

  /** The group at position k is not empty: its program runs first. */
  lemma ChainStep(sets: map<nat, MapDef>, rules: seq<DnatRule>, k: nat, id: nat, p: Packet)
    requires k < 4 && GroupAt(rules, k) != [] && Extends(sets, CompileFrom(rules, k, id).sets)
    requires RunChain(sets, CompileFrom(rules, k + 1, id + 2).programs, p)
             == if ServedFrom(p, k + 1) then FirstMatch(rules, p) else NoMatch
    ensures RunChain(sets, CompileFrom(rules, k, id).programs, p)
            == if Eligible(p, k >= 2, TransportAt(k)) || ServedFrom(p, k + 1) then FirstMatch(rules, p) else NoMatch
  {
    CompileUnfold(rules, k, id);
    ProgramCorrect(sets, rules, k >= 2, TransportAt(k), id, id + 1, p);
    ChainCons(sets, CompileFrom(rules, k, id).programs, p, Eligible(p, k >= 2, TransportAt(k)), ServedFrom(p, k + 1),
              FirstMatch(rules, p));
  }

  /** Leaving out the program of an empty group changes no verdict. */
  lemma SkipCorrect(rules: seq<DnatRule>, k: nat, p: Packet)
    requires k < 4 && GroupAt(rules, k) == []
    ensures (if ServedFrom(p, k) then FirstMatch(rules, p) else NoMatch)
            == (if ServedFrom(p, k + 1) then FirstMatch(rules, p) else NoMatch)
  {
    if Eligible(p, k >= 2, TransportAt(k)) { EmptyGroup(rules, k >= 2, TransportAt(k), p); }
  }

  lemma {:induction false} ChainCorrect(sets: map<nat, MapDef>, rules: seq<DnatRule>, k: nat, id: nat, p: Packet)
    requires k <= 4 && Extends(sets, CompileFrom(rules, k, id).sets)
    ensures RunChain(sets, CompileFrom(rules, k, id).programs, p) ==
            if ServedFrom(p, k) then FirstMatch(rules, p) else NoMatch
    ensures |CompileFrom(rules, k, id).programs| <= 4 - k
    decreases 4 - k
  {
    if k < 4 {
      if GroupAt(rules, k) == [] {
        ChainCorrect(sets, rules, k + 1, id, p);
        SkipCorrect(rules, k, p);
      } else {
        CompileUnfold(rules, k, id);
        ChainCorrect(sets, rules, k + 1, id + 2, p);
        ChainStep(sets, rules, k, id, p);
      }
    }
  }

  lemma {:induction false} UnservedUnmatched(rules: seq<DnatRule>, p: Packet)
    requires !ServedFrom(p, 0)
    ensures FirstMatch(rules, p) == NoMatch
  {
    if rules != [] {
      UnservedUnmatched(rules[1..], p);
      assert !ServedFrom(p, 1) && !ServedFrom(p, 2) && !ServedFrom(p, 3);
    }
  }

  /** Compiler correctness: the generated programs do to every packet what the rule list says. */
  lemma CompileCorrect(rules: seq<DnatRule>, p: Packet)
    ensures Dispatch(Compile(rules), p) == FirstMatch(rules, p)
    ensures |Compile(rules).programs| <= 4
  {
    ChainCorrect(Compile(rules).sets, rules, 0, 1, p);
    if !ServedFrom(p, 0) {
      UnservedUnmatched(rules, p);
    }
  }
}
