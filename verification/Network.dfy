/** IPv4 address management and the endpoints of a bridge network (src/core/src/network.rs). */
module Network {
  import opened Text

  const U32: nat := 0x1_0000_0000

  type Ip = n: nat | n < U32

  // ----- Subnet arithmetic -----

  function Pow2(n: nat): (p: nat)
    ensures p > 0
  {
    if n == 0 then 1 else 2 * Pow2(n - 1)
  }

  /** Bitwise or. */
  function BitOr(a: nat, b: nat): nat {
    if a == 0 && b == 0 then 0
    else 2 * BitOr(a / 2, b / 2) + (if a % 2 == 1 || b % 2 == 1 then 1 else 0)
  }

  datatype Subnet = Subnet(network: Ip, prefixLen: nat)

  datatype Ipam = Ipam(network: Ip, prefixLen: nat, gateway: Ip) {
    predicate Valid() {
      1 <= prefixLen <= 30 && gateway == network + 1
    }

    function HostBits(): nat
      requires Valid()
    {
      32 - prefixLen
    }

    function Broadcast(): nat
      requires Valid()
    {
      BitOr(network, Pow2(HostBits()) - 1)
    }

    /** Usable addresses, by the source's formula: all but network, gateway and broadcast. */
    function Capacity(): nat
      requires Valid()
    {
      var total := Pow2(HostBits()) - 1;
      if total >= 2 then total - 2 else 0
    }

    /** The subnet was written with its host bits clear. */
    predicate Aligned()
      requires Valid()
    {
      network % Pow2(HostBits()) == 0
    }

    /** The addresses the allocator may hand out. */
    predicate IsCandidate(ip: nat)
      requires Valid()
    {
      network + 2 <= ip < Broadcast()
    }
  }

  /** `Ipam::new` on a parsed CIDR. */
  function NewIpam(subnet: Subnet): (r: Option<Ipam>)
    ensures r.Some? ==> r.value.Valid()
  {
    if subnet.prefixLen == 0 || subnet.prefixLen > 30 || subnet.network + 1 >= U32
    then None
    else Some(Ipam(subnet.network, subnet.prefixLen, subnet.network + 1))
  }

  lemma {:induction false} OrWithMask(a: nat, h: nat)
    ensures BitOr(a, Pow2(h) - 1) == a - a % Pow2(h) + Pow2(h) - 1
  {
    if h == 0 {
      OrWithZero(a);
    } else {
      OrWithMask(a / 2, h - 1);
      var p := Pow2(h - 1);
      assert Pow2(h) == 2 * p;
      assert (2 * p - 1) / 2 == p - 1 && (2 * p - 1) % 2 == 1;
      HalveRemainder(a, p);
    }
  }

  lemma {:induction false} OrWithZero(a: nat)
    ensures BitOr(a, 0) == a
  {
    if a > 0 {
      OrWithZero(a / 2);
    }
  }

  lemma HalveRemainder(a: nat, p: nat)
    requires p > 0
    ensures a % (2 * p) == 2 * ((a / 2) % p) + a % 2
  {
    var q, r := (a / 2) / p, (a / 2) % p;
    assert a / 2 == q * p + r;
    assert a == (2 * p) * q + (2 * r + a % 2);
    DivMod(a, 2 * p, q, 2 * r + a % 2);
  }

  lemma DivMod(a: nat, d: nat, q: nat, r: nat)
    requires d > 0 && a == d * q + r && r < d
    ensures a % d == r
  {
    var k := q - a / d;
    assert d * k == a % d - r;
    if k >= 1 {
      MulAtLeast(d, k);
    } else if k <= -1 {
      MulAtLeast(d, -k);
    }
  }

  lemma MulAtLeast(d: nat, k: nat)
    requires k >= 1
    ensures d * k >= d
  {
  }

  lemma {:induction false} Pow2Small(h: nat)
    requires 2 <= h
    ensures Pow2(h) >= 4
  {
    if h > 2 {
      Pow2Small(h - 1);
    } else {
      assert Pow2(2) == 2 * Pow2(1) && Pow2(1) == 2 * Pow2(0);
    }
  }

  /** How many addresses the allocator can ever hand out. */
  function Usable(ipam: Ipam): nat
    requires ipam.Valid()
  {
    var room := ipam.Capacity() - ipam.network % Pow2(ipam.HostBits());
    if room > 0 then room else 0
  }

  lemma UsableIsCandidateCount(ipam: Ipam)
    requires ipam.Valid()
    ensures Usable(ipam) == if ipam.Broadcast() > ipam.network + 2 then ipam.Broadcast() - (ipam.network + 2) else 0
  {
    OrWithMask(ipam.network, ipam.HostBits());
    Pow2Small(ipam.HostBits());
  }

  // ----- Allocation -----

  ghost predicate IsLowestFree(ipam: Ipam, used: set<Ip>, ip: Ip)
    requires ipam.Valid()
  {
    && ipam.IsCandidate(ip) && ip !in used
    && forall other: Ip | ipam.IsCandidate(other) && other < ip :: other in used
  }

  ghost predicate AllUsed(ipam: Ipam, used: set<Ip>)
    requires ipam.Valid()
  {
    forall ip: Ip | ipam.IsCandidate(ip) :: ip in used
  }

  /** `Ipam::allocate`. */
  method Allocate(ipam: Ipam, used: set<Ip>) returns (r: Option<Ip>)
    requires ipam.Valid()
    ensures r.Some? ==> IsLowestFree(ipam, used, r.value)
    ensures r.None? ==> AllUsed(ipam, used)
  {
    var broadcast := ipam.Broadcast();
    if ipam.network + 2 >= U32 {
      return None;
    }
    var candidate: Ip := ipam.network + 2;
    while candidate < broadcast
      invariant ipam.network + 2 <= candidate
      invariant forall ip: Ip | ipam.IsCandidate(ip) && ip < candidate :: ip in used
      decreases broadcast - candidate
    {
      if candidate != ipam.gateway {
        if candidate !in used {
          return Some(candidate);
        }
      }
      if candidate + 1 >= U32 {
        break;
      }
      candidate := candidate + 1;
    }
    r := None;
  }

  // ----- MAC addresses -----

  function HexDigit(d: nat): char
    requires d < 16
  {
    if d < 10 then '0' + d as char else 'a' + (d - 10) as char
  }

  function HexByte(n: nat): (s: string)
    requires n < 256
    ensures |s| == 2
  {
    [HexDigit(n / 16), HexDigit(n % 16)]
  }

  function Octet(ip: Ip, i: nat): (o: nat)
    requires i < 4
    ensures o < 256
  {
    match i
    case 0 => ip / 0x1_00_0000
    case 1 => ip / 0x1_0000 % 0x100
    case 2 => ip / 0x100 % 0x100
    case 3 => ip % 0x100
  }

  function MacFromIp(ip: Ip): string {
    "02:42:" + HexByte(Octet(ip, 0)) + ":" + HexByte(Octet(ip, 1))
      + ":" + HexByte(Octet(ip, 2)) + ":" + HexByte(Octet(ip, 3))
  }

  lemma HexByteInjective(a: nat, b: nat)
    requires a < 256 && b < 256 && HexByte(a) == HexByte(b)
    ensures a == b
  {
    assert HexByte(a)[0] == HexByte(b)[0] && HexByte(a)[1] == HexByte(b)[1];
  }

  lemma MacParts(p: string, a: string, b: string, c: string, d: string)
    requires |p| == 6 && |a| == |b| == |c| == |d| == 2
    ensures var mac := p + a + ":" + b + ":" + c + ":" + d;
      && |mac| == 17 && mac[..6] == p && mac[6..8] == a && mac[9..11] == b && mac[12..14] == c && mac[15..] == d
      && mac[8] == mac[11] == mac[14] == ':'
  {
  }

  lemma MacFromIpInjective(a: Ip, b: Ip)
    requires MacFromIp(a) == MacFromIp(b)
    ensures a == b
  {
    var prefix := "02:42:";
    MacParts(prefix, HexByte(Octet(a, 0)), HexByte(Octet(a, 1)), HexByte(Octet(a, 2)), HexByte(Octet(a, 3)));
    MacParts(prefix, HexByte(Octet(b, 0)), HexByte(Octet(b, 1)), HexByte(Octet(b, 2)), HexByte(Octet(b, 3)));
    HexByteInjective(Octet(a, 0), Octet(b, 0));
    HexByteInjective(Octet(a, 1), Octet(b, 1));
    HexByteInjective(Octet(a, 2), Octet(b, 2));
    HexByteInjective(Octet(a, 3), Octet(b, 3));
    OctetsDetermine(a);
    OctetsDetermine(b);
  }

  lemma OctetsDetermine(ip: Ip)
    ensures ip == Octet(ip, 0) * 0x1_00_0000 + Octet(ip, 1) * 0x1_0000 + Octet(ip, 2) * 0x100 + Octet(ip, 3)
  {
  }

  /** What a lower-case hexadecimal digit stands for. */
  function HexValue(c: char): int {
    if '0' <= c <= '9' then c as int - '0' as int
    else if 'a' <= c <= 'f' then c as int - 'a' as int + 10
    else -1
  }

  predicate SpellsByte(s: string, n: nat) {
    |s| == 2 && HexValue(s[0]) >= 0 && HexValue(s[1]) >= 0 && 16 * HexValue(s[0]) + HexValue(s[1]) == n
  }

  lemma HexByteSpells(n: nat)
    requires n < 256
    ensures SpellsByte(HexByte(n), n)
  {
    assert HexValue(HexDigit(n / 16)) == n / 16;
    assert HexValue(HexDigit(n % 16)) == n % 16;
  }

  /** The layout of a MAC: a fixed prefix, then the address octet by octet, the highest first. */
  lemma MacLayout(ip: Ip)
    ensures var mac := MacFromIp(ip);
      && |mac| == 17 && mac[..6] == "02:42:" && mac[8] == mac[11] == mac[14] == ':'
      && SpellsByte(mac[6..8], ip / 0x100_0000) && SpellsByte(mac[9..11], ip / 0x1_0000 % 0x100)
      && SpellsByte(mac[12..14], ip / 0x100 % 0x100) && SpellsByte(mac[15..], ip % 0x100)
  {
    var a, b, c, d := HexByte(Octet(ip, 0)), HexByte(Octet(ip, 1)), HexByte(Octet(ip, 2)), HexByte(Octet(ip, 3));
    MacParts("02:42:", a, b, c, d);
    HexByteSpells(Octet(ip, 0));
    HexByteSpells(Octet(ip, 1));
    HexByteSpells(Octet(ip, 2));
    HexByteSpells(Octet(ip, 3));
  }

  // ----- Endpoints -----

  datatype Endpoint = Endpoint(boxId: string, boxName: string, aliases: seq<string>, ip: Ip, mac: string)

  type Endpoints = map<string, Endpoint>

  function UsedIps(endpoints: Endpoints): set<Ip> {
    set id | id in endpoints :: endpoints[id].ip
  }

  ghost predicate Consistent(id: string, endpoint: Endpoint) {
    endpoint.boxId == id && endpoint.mac == MacFromIp(endpoint.ip)
  }

  ghost predicate ValidEndpoints(ipam: Ipam, endpoints: Endpoints)
    requires ipam.Valid()
  {
    && (forall id | id in endpoints :: Consistent(id, endpoints[id]) && ipam.IsCandidate(endpoints[id].ip))
    && (forall a, b | a in endpoints && b in endpoints && a != b :: endpoints[a].ip != endpoints[b].ip)
  }

  function Candidates(ipam: Ipam): set<Ip>
    requires ipam.Valid()
  {
    set ip: Ip | 0 <= ip < U32 && ipam.IsCandidate(ip)
  }

  lemma {:induction false} RangeSize(lo: nat, hi: nat, range: set<Ip>)
    requires hi <= U32 && forall ip: Ip :: ip in range <==> lo <= ip < hi
    ensures |range| == if lo < hi then hi - lo else 0
    decreases hi - lo
  {
    if lo < hi {
      RangeSize(lo + 1, hi, range - {lo});
    } else {
      assert range == {};
    }
  }

  lemma {:induction false} OrFits(a: nat, b: nat, n: nat)
    requires a < Pow2(n) && b < Pow2(n)
    ensures BitOr(a, b) < Pow2(n)
  {
    if n > 0 {
      OrFits(a / 2, b / 2, n - 1);
    }
  }

  lemma {:induction false} Pow2Grows(m: nat, n: nat)
    requires m <= n
    ensures Pow2(m) <= Pow2(n)
    decreases n
  {
    if m < n {
      Pow2Grows(m, n - 1);
    }
  }

  lemma Pow2Of32()
    ensures Pow2(32) == U32
  {
    assert Pow2(4) == 16;
    assert Pow2(8) == 256;
    assert Pow2(12) == 0x1000;
    assert Pow2(16) == 0x1_0000;
    assert Pow2(20) == 0x10_0000;
    assert Pow2(24) == 0x100_0000;
    assert Pow2(28) == 0x1000_0000;
  }

  lemma BroadcastFits(ipam: Ipam)
    requires ipam.Valid()
    ensures ipam.Broadcast() < U32
  {
    Pow2Of32();
    Pow2Grows(ipam.HostBits(), 32);
    OrFits(ipam.network, Pow2(ipam.HostBits()) - 1, 32);
  }

  lemma CandidateCount(ipam: Ipam)
    requires ipam.Valid()
    ensures |Candidates(ipam)| == Usable(ipam)
  {
    BroadcastFits(ipam);
    RangeSize(ipam.network + 2, ipam.Broadcast(), Candidates(ipam));
    UsableIsCandidateCount(ipam);
  }

  /** `capacity()` is the number of addresses the allocator scans exactly on an aligned subnet. */
  lemma CapacityIsExactWhenAligned(ipam: Ipam)
    requires ipam.Valid()
    ensures |Candidates(ipam)| == ipam.Capacity() <==> ipam.Aligned()
  {
    Pow2Small(ipam.HostBits());
    CandidateCount(ipam);
  }

  /** 10.0.0.5/24 is accepted, and five addresses of its stated capacity do not exist. */
  lemma UnalignedSubnetFallsShort()
    ensures var ipam := NewIpam(Subnet(0x0A00_0005, 24));
      ipam.Some? && ipam.value.Capacity() == 253 && |Candidates(ipam.value)| == 248
  {
    assert Pow2(4) == 16;
    assert Pow2(8) == 256;
    CandidateCount(NewIpam(Subnet(0x0A00_0005, 24)).value);
  }

  function IpsOf(endpoints: Endpoints, ids: set<string>): set<Ip>
    requires ids <= endpoints.Keys
  {
    set id | id in ids :: endpoints[id].ip
  }

  /** Distinct addresses: as many as endpoints. */
  lemma {:induction false} IpCount(endpoints: Endpoints, ids: set<string>)
    requires ids <= endpoints.Keys
    requires forall a, b | a in endpoints && b in endpoints && a != b :: endpoints[a].ip != endpoints[b].ip
    ensures |IpsOf(endpoints, ids)| == |ids|
    decreases |ids|
  {
    if ids != {} {
      var id :| id in ids;
      var rest := ids - {id};
      IpCount(endpoints, rest);
      assert IpsOf(endpoints, ids) == IpsOf(endpoints, rest) + {endpoints[id].ip};
    }
  }

  lemma SubsetSize<T>(a: set<T>, b: set<T>)
    requires a <= b
    ensures |a| <= |b|
    ensures |a| == |b| ==> a == b
  {
    assert b == a + (b - a);
  }

  lemma AllUsedIsInclusion(ipam: Ipam, used: set<Ip>)
    requires ipam.Valid()
    ensures AllUsed(ipam, used) <==> Candidates(ipam) <= used
  {
    if Candidates(ipam) <= used {
      forall ip: Ip | ipam.IsCandidate(ip)
        ensures ip in used
      {
        assert ip in Candidates(ipam);
      }
    }
  }

  lemma UsedAreCandidates(ipam: Ipam, endpoints: Endpoints)
    requires ipam.Valid() && ValidEndpoints(ipam, endpoints)
    ensures UsedIps(endpoints) <= Candidates(ipam) && |UsedIps(endpoints)| == |endpoints|
  {
    IpCount(endpoints, endpoints.Keys);
    assert UsedIps(endpoints) == IpsOf(endpoints, endpoints.Keys);
  }

  /** Pigeonhole: a free address is left exactly while there are fewer endpoints than usable addresses. */
  lemma FreeExactlyBelowUsable(ipam: Ipam, endpoints: Endpoints)
    requires ipam.Valid() && ValidEndpoints(ipam, endpoints)
    ensures AllUsed(ipam, UsedIps(endpoints)) <==> |endpoints| >= Usable(ipam)
  {
    var used, candidates := UsedIps(endpoints), Candidates(ipam);
    CandidateCount(ipam);
    UsedAreCandidates(ipam, endpoints);
    AllUsedIsInclusion(ipam, used);
    SubsetSize(used, candidates);
    if candidates <= used {
      SubsetSize(candidates, used);
    }
  }

  // ----- Connecting and disconnecting -----

  /** The aliases kept: neither empty nor the box's own name. */
  function Aliases(aliases: seq<string>, boxName: string): seq<string> {
    if aliases == [] then []
    else
      var last, front := aliases[|aliases| - 1], aliases[..|aliases| - 1];
      Aliases(front, boxName) + if last != "" && last != boxName then [last] else []
  }

  function UsefulAliases(aliases: seq<string>, boxName: string): set<nat> {
    set i: nat | i < |aliases| && aliases[i] != "" && aliases[i] != boxName
  }

  /** Exactly the useful ones, in their order. */
  predicate AreAliases(kept: seq<string>, aliases: seq<string>, boxName: string, picked: seq<nat>) {
    && Lists(picked, UsefulAliases(aliases, boxName)) && |kept| == |picked|
    && forall k | 0 <= k < |picked| :: picked[k] < |aliases| && kept[k] == aliases[picked[k]]
  }

  lemma AliasesNext(kept: seq<string>, aliases: seq<string>, alias: string, boxName: string, picked: seq<nat>)
    requires AreAliases(kept, aliases, boxName, picked)
    ensures if alias != "" && alias != boxName
      then AreAliases(kept + [alias], aliases + [alias], boxName, picked + [|aliases|])
      else AreAliases(kept, aliases + [alias], boxName, picked)
  {
    ListsNext(picked, UsefulAliases(aliases, boxName), |aliases|);
    assert UsefulAliases(aliases + [alias], boxName) ==
      UsefulAliases(aliases, boxName) + if alias != "" && alias != boxName then {|aliases|} else {};
    assert forall k | 0 <= k < |picked| :: (aliases + [alias])[picked[k]] == aliases[picked[k]];
  }

  lemma {:induction false} AliasesAre(aliases: seq<string>, boxName: string) returns (picked: seq<nat>)
    ensures AreAliases(Aliases(aliases, boxName), aliases, boxName, picked)
  {
    if aliases == [] {
      picked := [];
    } else {
      var n := |aliases| - 1;
      var front, last := aliases[..n], aliases[n];
      assert aliases == front + [last];
      picked := AliasesAre(front, boxName);
      AliasesNext(Aliases(front, boxName), front, last, boxName, picked);
      picked := if last != "" && last != boxName then picked + [n] else picked;
    }
  }

  /** The effect of a connect that is handed `ip`. */
  function Connected(endpoints: Endpoints, boxId: string, boxName: string, aliases: seq<string>, ip: Ip): Endpoints {
    endpoints[boxId := Endpoint(boxId, boxName, Aliases(aliases, boxName), ip, MacFromIp(ip))]
  }

  lemma ConnectKeepsValid(ipam: Ipam, endpoints: Endpoints, boxId: string, boxName: string, aliases: seq<string>,
    ip: Ip)
    requires ipam.Valid() && ValidEndpoints(ipam, endpoints)
    requires boxId !in endpoints && IsLowestFree(ipam, UsedIps(endpoints), ip)
    ensures ValidEndpoints(ipam, Connected(endpoints, boxId, boxName, aliases, ip))
  {
    assert forall id | id in endpoints :: endpoints[id].ip in UsedIps(endpoints);
  }

  datatype ConnectError = AlreadyConnected | InvalidSubnet | Exhausted

  datatype ConnectResult = Joined(endpoint: Endpoint) | Refused(error: ConnectError)

  class NetworkConfig {
    const subnet: Subnet
    var endpoints: Endpoints

    ghost predicate Valid()
      reads this
    {
      NewIpam(subnet).Some? ==> ValidEndpoints(NewIpam(subnet).value, endpoints)
    }

    constructor (subnet: Subnet)
      ensures this.subnet == subnet && endpoints == map[] && Valid()
    {
      this.subnet := subnet;
      endpoints := map[];
    }

    method ConnectWithAliases(boxId: string, boxName: string, aliases: seq<string>) returns (r: ConnectResult)
      requires Valid()
      modifies this
      ensures Valid()
      ensures r.Joined? <==>
        && boxId !in old(endpoints)
        && NewIpam(subnet).Some?
        && |old(endpoints)| < Usable(NewIpam(subnet).value)
      ensures r.Joined? ==>
        && IsLowestFree(NewIpam(subnet).value, UsedIps(old(endpoints)), r.endpoint.ip)
        && endpoints == Connected(old(endpoints), boxId, boxName, aliases, r.endpoint.ip)
        && r.endpoint == endpoints[boxId] && r.endpoint.boxId == boxId && r.endpoint.boxName == boxName
        && exists picked :: AreAliases(r.endpoint.aliases, aliases, boxName, picked)
      ensures r.Refused? ==> endpoints == old(endpoints)
      ensures r == Refused(AlreadyConnected) <==> boxId in old(endpoints)
      ensures r == Refused(InvalidSubnet) <==>
        && boxId !in old(endpoints)
        && (subnet.prefixLen == 0 || subnet.prefixLen > 30 || subnet.network == 0xFFFF_FFFF)
    {
      if boxId in endpoints {
        return Refused(AlreadyConnected);
      }
      var ipam := NewIpam(subnet);
      if ipam.None? {
        return Refused(InvalidSubnet);
      }
      FreeExactlyBelowUsable(ipam.value, endpoints);
      var ip := Allocate(ipam.value, UsedIps(endpoints));
      if ip.None? {
        return Refused(Exhausted);
      }
      ConnectKeepsValid(ipam.value, endpoints, boxId, boxName, aliases, ip.value);
      ghost var picked := AliasesAre(aliases, boxName);
      var endpoint := Endpoint(boxId, boxName, Aliases(aliases, boxName), ip.value, MacFromIp(ip.value));
      endpoints := endpoints[boxId := endpoint];
      r := Joined(endpoint);
    }

    method Disconnect(boxId: string) returns (r: Option<Endpoint>)
      requires Valid()
      modifies this
      ensures Valid()
      ensures endpoints == old(endpoints) - {boxId}
      ensures r == if boxId in old(endpoints) then Some(old(endpoints)[boxId]) else None
    {
      if boxId !in endpoints {
        assert endpoints - {boxId} == endpoints;
        return None;
      }
      r := Some(endpoints[boxId]);
      endpoints := endpoints - {boxId};
    }
  }

  // ----- A box's endpoint over its lifetime -----

  /** What happens to a box, as far as the network is concerned. `ip` is the address an allocation yields. */
  datatype Op =
    | Boot(boxId: string, boxName: string, ip: Ip, succeeds: bool)
    | StopBox(boxId: string)
    | RemoveBox(boxId: string)
    | Connect(boxId: string, boxName: string, aliases: seq<string>, ip: Ip)
    | DisconnectBox(boxId: string)

  ghost predicate Possible(ipam: Ipam, endpoints: Endpoints, op: Op)
    requires ipam.Valid()
  {
    match op
    case Boot(boxId, _, ip, _) => boxId in endpoints || IsLowestFree(ipam, UsedIps(endpoints), ip)
    case Connect(boxId, _, _, ip) => boxId !in endpoints && IsLowestFree(ipam, UsedIps(endpoints), ip)
    case _ => true
  }

  /** Booting connects an unconnected box and a failed boot releases the endpoint; stopping keeps it. */
  function Apply(endpoints: Endpoints, op: Op): Endpoints {
    match op
    case Boot(boxId, boxName, ip, succeeds) =>
      var joined := if boxId in endpoints then endpoints else Connected(endpoints, boxId, boxName, [], ip);
      if succeeds then joined else joined - {boxId}
    case StopBox(_) => endpoints
    case RemoveBox(boxId) => endpoints - {boxId}
    case Connect(boxId, boxName, aliases, ip) => Connected(endpoints, boxId, boxName, aliases, ip)
    case DisconnectBox(boxId) => endpoints - {boxId}
  }

  ghost predicate IsHistory(ipam: Ipam, states: seq<Endpoints>, ops: seq<Op>)
    requires ipam.Valid()
  {
    && |states| == |ops| + 1 && states[0] == map[]
    && forall i | 0 <= i < |ops| :: Possible(ipam, states[i], ops[i]) && states[i + 1] == Apply(states[i], ops[i])
  }

  predicate Releases(op: Op, boxId: string) {
    op.boxId == boxId && (op.RemoveBox? || op.DisconnectBox? || (op.Boot? && !op.succeeds))
  }

  lemma {:induction false} HistoryIsValid(ipam: Ipam, states: seq<Endpoints>, ops: seq<Op>, n: nat)
    requires ipam.Valid() && IsHistory(ipam, states, ops) && n < |states|
    ensures ValidEndpoints(ipam, states[n])
  {
    if n > 0 {
      HistoryIsValid(ipam, states, ops, n - 1);
      var before, op := states[n - 1], ops[n - 1];
      if (op.Boot? || op.Connect?) && op.boxId !in before {
        var aliases := if op.Connect? then op.aliases else [];
        ConnectKeepsValid(ipam, before, op.boxId, op.boxName, aliases, op.ip);
      }
    }
  }

  /**
   Over every history of boots, stops, removals and explicit connects, addresses
   are distinct and lie between gateway and broadcast, and MACs are distinct.
   */
  lemma AddressesNeverCollide(ipam: Ipam, states: seq<Endpoints>, ops: seq<Op>, n: nat, a: string, b: string)
    requires ipam.Valid() && IsHistory(ipam, states, ops) && n < |states|
    requires a in states[n] && b in states[n] && a != b
    ensures states[n][a].ip != states[n][b].ip && states[n][a].mac != states[n][b].mac
    ensures ipam.gateway < states[n][a].ip < ipam.Broadcast()
  {
    HistoryIsValid(ipam, states, ops, n);
    if states[n][a].mac == states[n][b].mac {
      MacFromIpInjective(states[n][a].ip, states[n][b].ip);
    }
  }

  /** Removal, disconnection and a failed boot leave the box without an endpoint, and touch no other. */
  lemma ReleaseFrees(ipam: Ipam, states: seq<Endpoints>, ops: seq<Op>, i: nat, boxId: string)
    requires ipam.Valid() && IsHistory(ipam, states, ops) && i < |ops| && Releases(ops[i], boxId)
    ensures states[i + 1] == states[i] - {boxId}
  {
    assert states[i + 1] == Apply(states[i], ops[i]);
  }

  /** A connected box keeps its endpoint until a step releases it. */
  lemma {:induction false} AddressIsKept(ipam: Ipam, states: seq<Endpoints>, ops: seq<Op>, i: nat, j: nat,
    boxId: string)
    requires ipam.Valid() && IsHistory(ipam, states, ops) && i <= j < |states|
    requires boxId in states[i] && forall k | i <= k < j :: !Releases(ops[k], boxId)
    ensures boxId in states[j] && states[j][boxId] == states[i][boxId]
    decreases j
  {
    if i < j {
      AddressIsKept(ipam, states, ops, i, j - 1, boxId);
      assert Possible(ipam, states[j - 1], ops[j - 1]);
    }
  }
}
