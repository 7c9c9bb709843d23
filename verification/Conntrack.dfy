/** The connection tracker: committing connections, with or without address translation, cleaning them
    up, and the counts and limits of connections in all and per zone. */
module Conntracks {
  import opened ConnTable
  import opened NatRange
  import opened Numbers
  import opened Sequences
  import opened Wrappers

  const ETH_TYPE_IP := 0x0800

  datatype NatInfo = NatInfo(action: NatAction, minAddr: Addr, maxAddr: Addr, minPort: nat, maxPort: nat) {
    /** Translation in one direction, with ranges that are not empty. */
    predicate Ok(ipv4: bool) {
      && action.src != action.dst
      && (minAddr.Value() > 0 ==> minAddr.Value() <= maxAddr.Value() && (ipv4 ==> maxAddr.Value() < TWO_32))
      && minPort <= maxPort < TWO_16
    }
  }

  datatype Ports = Ports(curr: nat, min: nat, max: nat)

  /** The source ports to try: those of the action, or the sender's port and others of its kind. */
  function SourcePorts(info: NatInfo, key: Key, hash: nat): Ports
    requires info.minPort <= info.maxPort
  {
    if (info.action.src && !info.action.srcPort) || info.action.dst then
      var curr := key.src.port;
      if curr < 512 then Ports(curr, 1, 511)
      else if curr < 1024 then Ports(curr, 600, 1023)
      else Ports(curr, 1024, 65535)
    else
      Ports(Pick(info.minPort, info.maxPort - info.minPort + 1, hash), info.minPort, info.maxPort)
  }

  function DestinationPorts(info: NatInfo, key: Key, hash: nat): Ports
    requires info.minPort <= info.maxPort
  {
    if info.action.dstPort then
      Ports(Pick(info.minPort, info.maxPort - info.minPort + 1, hash), info.minPort, info.maxPort)
    else Ports(key.dst.port, key.dst.port, key.dst.port)
  }

  /** The address to translate to: the packet's own if the action gives none, or else the one of the range that
      the hash picks. */
  function AddrFor(key: Key, info: NatInfo, hash: nat): Addr
    requires info.Ok(key.dlType == ETH_TYPE_IP)
  {
    if info.minAddr == Addr(0, 0) then
      if info.action.src then key.src.addr else key.dst.addr
    else
      var min, max := info.minAddr.Value(), info.maxAddr.Value();
      AddrAt(Pick(min, NatRange.Min(max - min, 0xffff_fffe) + 1, hash))
  }

  method FindAddr(key: Key, info: NatInfo, hash: nat) returns (r: Addr)
    requires info.Ok(key.dlType == ETH_TYPE_IP) && hash < TWO_32
    ensures r == AddrFor(key, info, hash) && AddrOk(key, info, r)
  {
    if info.minAddr == Addr(0, 0) {
      r := if info.action.src then key.src.addr else key.dst.addr;
    } else {
      r := AddrInRange(info.minAddr, info.maxAddr, hash, key.dlType == ETH_TYPE_IP);
      hide Pick;
      SameValue(r, AddrFor(key, info, hash));
    }
  }

  /** Every address of a range of up to 2^32 - 1 addresses is picked by some hash. */
  lemma AddrCovers(key: Key, info: NatInfo, addr: Addr) returns (hash: nat)
    requires info.Ok(key.dlType == ETH_TYPE_IP) && info.minAddr.Value() > 0
    requires info.minAddr.Value() <= addr.Value() <= info.maxAddr.Value()
    requires info.maxAddr.Value() - info.minAddr.Value() < TWO_32 - 1
    ensures hash < TWO_32 && AddrFor(key, info, hash) == addr
  {
    var min, max := info.minAddr.Value(), info.maxAddr.Value();
    hash := PickCovers(min, max - min + 1, addr.Value());
    hide Pick;
    SameValue(addr, AddrFor(key, info, hash));
  }

  predicate AddrOk(key: Key, info: NatInfo, addr: Addr) {
    if info.minAddr == Addr(0, 0) then addr == if info.action.src then key.src.addr else key.dst.addr
    else info.minAddr.Value() <= addr.Value() <= info.maxAddr.Value()
  }

  function WithSrcPort(k: Key, p: nat): Key {
    k.(src := k.src.(port := p))
  }

  function WithDstPort(k: Key, p: nat): Key {
    k.(dst := k.dst.(port := p))
  }

  predicate InUse(t: Table, h: Hashing, key: Key, now: int) {
    Search(Chain(t, h.Of(key)), key, now).Some?
  }

  /** The reverse key with the address of the action in it. */
  function StoreAddr(rev: Key, action: NatAction, addr: Addr): Key {
    if action.src then rev.(dst := rev.dst.(addr := addr)) else rev.(src := rev.src.(addr := addr))
  }

  predicate PortsOk(p: Ports) {
    p.min <= p.max < TWO_16 && p.curr < TWO_16
  }

  /** Ports below 512, those below 1024 and the others are three kinds. */
  predicate SameKind(p: nat, q: nat) {
    (p < 512 <==> q < 512) && (p < 1024 <==> q < 1024)
  }

  /** Where the search for a port starts, and which ports it is for: without ports of the action, those of the
      sender's kind.  It is in the range, but for the sender's ports 0 and 512 to 599, whose
      ranges have more than 128 ports; and only an action with all the ports can give the range of all. */
  lemma PortsGiven(info: NatInfo, key: Key, hash: nat)
    requires info.action.src != info.action.dst && info.minPort <= info.maxPort < TWO_16
    requires key.src.port < TWO_16 && key.dst.port < TWO_16
    ensures PortsOk(SourcePorts(info, key, hash)) && PortsOk(DestinationPorts(info, key, hash))
    ensures
      var s := SourcePorts(info, key, hash);
      if info.action.src && info.action.srcPort
      then s.min == info.minPort && s.max == info.maxPort && InRange(s.curr, s.min, s.max)
      else
        && s.curr == key.src.port && MAX_ATTEMPTS <= s.max - s.min < TWO_16 - 2
        && (InRange(s.curr, s.min, s.max) <==> s.curr != 0 && !(512 <= s.curr < 600))
        && forall p: nat :: InRange(p, s.min, s.max) <==> 0 < p < TWO_16 && !(512 <= p < 600) && SameKind(p, s.curr)
    ensures
      var d := DestinationPorts(info, key, hash);
      && InRange(d.curr, d.min, d.max)
      && if info.action.dstPort then d.min == info.minPort && d.max == info.maxPort
         else d.min == d.max == key.dst.port
  {
    hide Pick;
  }

  /** When the sender's port is outside the range of its kind, the first round tries it and then the first 127
      ports of the range. */
  lemma SenderOutside(info: NatInfo, key: Key, hash: nat, random: seq<nat>, k: nat)
    requires info.action.src != info.action.dst && info.minPort <= info.maxPort < TWO_16
    requires !(info.action.src && info.action.srcPort) && k < MAX_ATTEMPTS
    requires key.src.port == 0 || 512 <= key.src.port < 600
    ensures
      var s := SourcePorts(info, key, hash);
      var tried := PortsTried(s.curr, s.min, s.max, random);
      && |tried| >= MAX_ATTEMPTS
      && tried[k] == if k == 0 then key.src.port else if key.src.port == 0 then k else 599 + k
  {
    hide PortsTried;
    var s := SourcePorts(info, key, hash);
    TriedWide(s.curr, s.min, s.max, random, k);
  }

  /** The reverse key before a port is looked for. */
  function Untried(key: Key, info: NatInfo, hash: nat): Key
    requires info.Ok(key.dlType == ETH_TYPE_IP)
  {
    var own := StoreAddr(key.Reverse(), info.action, AddrFor(key, info, hash));
    if !key.HasPorts() then own
    else WithDstPort(WithSrcPort(own, DestinationPorts(info, key, hash).curr), SourcePorts(info, key, hash).curr)
  }

  /** The reverse keys with each of the ports as the source or the destination port. */
  function SrcTuples(base: Key, ports: seq<nat>): (r: seq<Key>)
    ensures |r| == |ports| && forall i :: 0 <= i < |r| ==> r[i] == WithSrcPort(base, ports[i])
  {
    seq(|ports|, i requires 0 <= i < |ports| => WithSrcPort(base, ports[i]))
  }

  function DstTuples(base: Key, ports: seq<nat>): (r: seq<Key>)
    ensures |r| == |ports| && forall i :: 0 <= i < |r| ==> r[i] == WithDstPort(base, ports[i])
  {
    seq(|ports|, i requires 0 <= i < |ports| => WithDstPort(base, ports[i]))
  }

  /** The reverse keys that the search tries, in order: first the destination ports that the action gives, and
      then the source ports. */
  function Tuples(key: Key, info: NatInfo, hash: nat, random: seq<nat>): seq<Key>
    requires info.Ok(key.dlType == ETH_TYPE_IP) && |random| >= 8
    requires key.HasPorts() ==> key.src.port < TWO_16 && key.dst.port < TWO_16
  {
    var base := Untried(key, info, hash);
    if !key.HasPorts() then [base]
    else
      var s, d := SourcePorts(info, key, hash), DestinationPorts(info, key, hash);
      (if info.action.dstPort then SrcTuples(base, PortsTried(d.curr, d.min, d.max, random[..4])) else []) +
      DstTuples(base, PortsTried(s.curr, s.min, s.max, random[4..]))
  }

  /** All the tuples that the search tries are in use. */
  predicate Exhausted(t: Table, h: Hashing, key: Key, info: NatInfo, hash: nat, now: int, random: seq<nat>)
    requires info.Ok(key.dlType == ETH_TYPE_IP) && |random| >= 8
    requires key.HasPorts() ==> key.src.port < TWO_16 && key.dst.port < TWO_16
  {
    AllTaken((k: Key) => InUse(t, h, k, now), Tuples(key, info, hash, random))
  }

  lemma SrcTaken(t: Table, h: Hashing, base: Key, now: int, ports: seq<nat>)
    ensures AllTaken((p: nat) => InUse(t, h, WithSrcPort(base, p), now), ports) <==>
      AllTaken((k: Key) => InUse(t, h, k, now), SrcTuples(base, ports))
  {
    hide InUse;
    var tuples := SrcTuples(base, ports);
    assert forall i :: 0 <= i < |ports| ==> tuples[i] == WithSrcPort(base, ports[i]);
  }

  lemma SrcFree(t: Table, h: Hashing, base: Key, now: int, ports: seq<nat>, p: nat)
    requires FirstFree((p: nat) => InUse(t, h, WithSrcPort(base, p), now), ports, p)
    ensures FirstFree((k: Key) => InUse(t, h, k, now), SrcTuples(base, ports), WithSrcPort(base, p))
  {
    hide InUse;
    var i :| 0 <= i < |ports| && ports[i] == p && AllTaken((p: nat) => InUse(t, h, WithSrcPort(base, p), now), ports[..i]);
    SrcTaken(t, h, base, now, ports[..i]);
    assert SrcTuples(base, ports)[..i] == SrcTuples(base, ports[..i]) && SrcTuples(base, ports)[i] == WithSrcPort(base, p);
  }

  lemma DstTaken(t: Table, h: Hashing, base: Key, now: int, ports: seq<nat>)
    ensures AllTaken((p: nat) => InUse(t, h, WithDstPort(base, p), now), ports) <==>
      AllTaken((k: Key) => InUse(t, h, k, now), DstTuples(base, ports))
  {
    hide InUse;
    var tuples := DstTuples(base, ports);
    assert forall i :: 0 <= i < |ports| ==> tuples[i] == WithDstPort(base, ports[i]);
  }

  lemma DstFree(t: Table, h: Hashing, base: Key, now: int, ports: seq<nat>, p: nat)
    requires FirstFree((p: nat) => InUse(t, h, WithDstPort(base, p), now), ports, p)
    ensures FirstFree((k: Key) => InUse(t, h, k, now), DstTuples(base, ports), WithDstPort(base, p))
  {
    hide InUse;
    var i :| 0 <= i < |ports| && ports[i] == p && AllTaken((p: nat) => InUse(t, h, WithDstPort(base, p), now), ports[..i]);
    DstTaken(t, h, base, now, ports[..i]);
    assert DstTuples(base, ports)[..i] == DstTuples(base, ports[..i]) && DstTuples(base, ports)[i] == WithDstPort(base, p);
  }

  /** Looks for a source port, which is a destination port of the replies. */
  method TrySourcePorts(t: Table, h: Hashing, base: Key, ports: Ports, now: int, random: seq<nat>)
    returns (ok: bool, rev: Key)
    requires PortsOk(ports) && |random| >= 4
    ensures
      var tuples := DstTuples(base, PortsTried(ports.curr, ports.min, ports.max, random));
      && (ok ==> FirstFree((k: Key) => InUse(t, h, k, now), tuples, rev) && rev == WithDstPort(base, rev.dst.port))
      && (!ok ==> AllTaken((k: Key) => InUse(t, h, k, now), tuples) && rev == WithDstPort(base, ports.curr))
  {
    hide InUse, AllTaken, FirstFree, PortsTried;
    var port, rounds;
    ok, port, rounds :=
      UniquePort((p: nat) => InUse(t, h, WithDstPort(base, p), now), ports.curr, ports.min, ports.max, random);
    rev := WithDstPort(base, port);
    if ok {
      DstFree(t, h, base, now, PortsTried(ports.curr, ports.min, ports.max, random), port);
    } else {
      DstTaken(t, h, base, now, PortsTried(ports.curr, ports.min, ports.max, random));
    }
  }

  /** Looks for a destination port, which is a source port of the replies. */
  method TryDestinationPorts(t: Table, h: Hashing, base: Key, ports: Ports, now: int, random: seq<nat>)
    returns (ok: bool, rev: Key)
    requires PortsOk(ports) && |random| >= 4
    ensures
      var tuples := SrcTuples(base, PortsTried(ports.curr, ports.min, ports.max, random));
      && (ok ==> FirstFree((k: Key) => InUse(t, h, k, now), tuples, rev) && rev == WithSrcPort(base, rev.src.port))
      && (!ok ==> AllTaken((k: Key) => InUse(t, h, k, now), tuples) && rev == WithSrcPort(base, ports.curr))
  {
    hide InUse, AllTaken, FirstFree, PortsTried;
    var port, rounds;
    ok, port, rounds :=
      UniquePort((p: nat) => InUse(t, h, WithSrcPort(base, p), now), ports.curr, ports.min, ports.max, random);
    rev := WithSrcPort(base, port);
    if ok {
      SrcFree(t, h, base, now, PortsTried(ports.curr, ports.min, ports.max, random), port);
    } else {
      SrcTaken(t, h, base, now, PortsTried(ports.curr, ports.min, ports.max, random));
    }
  }

  /** Looks for a reverse key that no connection in the table has: the first free one of those that the search
      tries, and none exactly when they are all in use.  It is a translation of the kind asked for, to the
      address that the hash picks from the range. */
  method UniqueTuple(t: Table, h: Hashing, key: Key, info: NatInfo, hash: nat, now: int, random: seq<nat>)
    returns (ok: bool, rev: Key)
    requires info.Ok(key.dlType == ETH_TYPE_IP) && hash < TWO_32 && |random| >= 8
    requires key.HasPorts() ==> key.src.port < TWO_16 && key.dst.port < TWO_16
    ensures ok ==> FirstFree((k: Key) => InUse(t, h, k, now), Tuples(key, info, hash, random), rev)
    ensures ok ==> TranslatesTo(key, info.action, rev) && !InUse(t, h, rev, now)
    ensures ok ==> (if info.action.src then rev.dst.addr else rev.src.addr) == AddrFor(key, info, hash)
    ensures AddrOk(key, info, AddrFor(key, info, hash))
    ensures !info.action.srcPort && !info.action.dstPort ==>
      var same := StoreAddr(key.Reverse(), info.action, AddrFor(key, info, hash));
      !InUse(t, h, same, now) ==> ok && rev == same
    ensures ok <==> !Exhausted(t, h, key, info, hash, now, random)
  {
    hide InUse, SourcePorts, DestinationPorts, AddrOk, AddrFor, PortsTried, AllTaken, FirstFree;
    var addr := FindAddr(key, info, hash);
    var sports, dports := SourcePorts(info, key, hash), DestinationPorts(info, key, hash);
    rev := key.Reverse();
    if key.HasPorts() {
      PortsGiven(info, key, hash);
      rev := WithDstPort(WithSrcPort(rev, dports.curr), sports.curr);
    }
    rev := StoreAddr(rev, info.action, addr);
    assert rev == Untried(key, info, hash);
    ghost var base := rev;
    if !key.HasPorts() {
      ok := !InUse(t, h, rev, now);
      OnlyOne((k: Key) => InUse(t, h, k, now), rev);
      return;
    }
    ok := false;
    ghost var first: seq<Key> := [];
    if info.action.dstPort {
      first := SrcTuples(rev, PortsTried(dports.curr, dports.min, dports.max, random[..4]));
      ok, rev := TryDestinationPorts(t, h, rev, dports, now, random[..4]);
    }
    assert !ok ==> rev == base;
    ghost var second := DstTuples(base, PortsTried(sports.curr, sports.min, sports.max, random[4..]));
    ghost var found := ok;
    if !ok {
      ok, rev := TrySourcePorts(t, h, rev, sports, now, random[4..]);
    }
    OneOrOther((k: Key) => InUse(t, h, k, now), first, second, found, ok, rev);
    if !info.action.srcPort && !info.action.dstPort {
      TriedFirst(sports.curr, sports.min, sports.max, random[4..]);
      FirstIsFree((k: Key) => InUse(t, h, k, now), second, ok, rev);
    }
  }

  lemma OnlyOne<T>(taken: T -> bool, x: T)
    ensures AllTaken(taken, [x]) <==> taken(x)
    ensures !taken(x) ==> FirstFree(taken, [x], x)
  {
    assert !taken(x) ==> [x][0] == x && AllTaken(taken, [x][..0]);
  }

  lemma OneOrOther<T>(taken: T -> bool, s: seq<T>, t: seq<T>, found: bool, ok: bool, x: T)
    requires if found then FirstFree(taken, s, x) else AllTaken(taken, s)
    requires found ==> ok
    requires !found ==> if ok then FirstFree(taken, t, x) else AllTaken(taken, t)
    ensures if ok then FirstFree(taken, s + t, x) && !taken(x) && !AllTaken(taken, s + t) else AllTaken(taken, s + t)
  {
    if found {
      FreeInLonger(taken, s, t, x);
    } else if ok {
      FreeAfterTaken(taken, s, t, x);
    }
  }

  lemma FirstIsFree<T>(taken: T -> bool, s: seq<T>, ok: bool, x: T)
    requires s != [] && if ok then FirstFree(taken, s, x) else AllTaken(taken, s)
    ensures (ok && x == s[0]) || taken(s[0])
  {
    if ok {
      var i :| 0 <= i < |s| && s[i] == x && AllTaken(taken, s[..i]);
      if i > 0 { assert taken(s[..i][0]); }
    }
  }

  lemma SourcesTaken(t: Table, h: Hashing, base: Key, now: int, s: Ports, random: seq<nat>, all: seq<Key>, first: nat)
    requires PortsOk(s) && AllTaken((k: Key) => InUse(t, h, k, now), all) && first <= |all|
    requires all[first..] == DstTuples(base, PortsTried(s.curr, s.min, s.max, random))
    ensures PortsInUse((p: nat) => InUse(t, h, WithDstPort(base, p), now), s)
  {
    hide InUse, PortsTried, PortsInUse, DstTuples;
    assert AllTaken((k: Key) => InUse(t, h, k, now), all[first..]);
    DstTaken(t, h, base, now, PortsTried(s.curr, s.min, s.max, random));
    SureTaken((p: nat) => InUse(t, h, WithDstPort(base, p), now), s, random);
  }

  lemma DestinationsTaken(t: Table, h: Hashing, base: Key, now: int, d: Ports, random: seq<nat>, all: seq<Key>, n: nat)
    requires PortsOk(d) && AllTaken((k: Key) => InUse(t, h, k, now), all) && n <= |all|
    requires all[..n] == SrcTuples(base, PortsTried(d.curr, d.min, d.max, random))
    ensures PortsInUse((p: nat) => InUse(t, h, WithSrcPort(base, p), now), d)
  {
    hide InUse, PortsTried, PortsInUse, SrcTuples;
    assert AllTaken((k: Key) => InUse(t, h, k, now), all[..n]);
    SrcTaken(t, h, base, now, PortsTried(d.curr, d.min, d.max, random));
    SureTaken((p: nat) => InUse(t, h, WithSrcPort(base, p), now), d, random);
  }

  /** What it takes for the search to fail: with the address that the hash picks, the packet's own ports are in
      use if the action gives none; every port of a range of at most 128; and in a wider one, the 128 ports that
      follow the start in a circle. */
  lemma FailsOnlyIf(t: Table, h: Hashing, key: Key, info: NatInfo, hash: nat, now: int, random: seq<nat>)
    requires info.Ok(key.dlType == ETH_TYPE_IP) && |random| >= 8
    requires key.HasPorts() ==> key.src.port < TWO_16 && key.dst.port < TWO_16
    requires Exhausted(t, h, key, info, hash, now, random)
    ensures !key.HasPorts() || (!info.action.srcPort && !info.action.dstPort) ==>
      InUse(t, h, StoreAddr(key.Reverse(), info.action, AddrFor(key, info, hash)), now)
    ensures key.HasPorts() ==>
      var s := SourcePorts(info, key, hash);
      && PortsOk(s) && PortsInUse((p: nat) => InUse(t, h, WithDstPort(Untried(key, info, hash), p), now), s)
    ensures key.HasPorts() && info.action.dstPort ==>
      var d := DestinationPorts(info, key, hash);
      && PortsOk(d) && PortsInUse((p: nat) => InUse(t, h, WithSrcPort(Untried(key, info, hash), p), now), d)
  {
    hide InUse, SourcePorts, DestinationPorts, PortsTried, AllTaken, PortsInUse, SrcTuples, DstTuples;
    var base, all := Untried(key, info, hash), Tuples(key, info, hash, random);
    if !key.HasPorts() {
      OnlyOne((k: Key) => InUse(t, h, k, now), base);
    } else {
      PortsGiven(info, key, hash);
      var s, d := SourcePorts(info, key, hash), DestinationPorts(info, key, hash);
      var dests := if info.action.dstPort then SrcTuples(base, PortsTried(d.curr, d.min, d.max, random[..4])) else [];
      assert all == dests + DstTuples(base, PortsTried(s.curr, s.min, s.max, random[4..]));
      SourcesTaken(t, h, base, now, s, random[4..], all, |dests|);
      if info.action.dstPort {
        DestinationsTaken(t, h, base, now, d, random[..4], all, |dests|);
      }
      OwnTaken((p: nat) => InUse(t, h, WithDstPort(base, p), now), s);
    }
  }

  lemma OwnTaken(taken: nat -> bool, p: Ports)
    requires PortsOk(p) && PortsInUse(taken, p)
    ensures p.max - p.min < TWO_16 - 2 ==> taken(p.curr)
  {
  }

  /** The ports that a search is sure to try are taken. */
  ghost predicate PortsInUse(taken: nat -> bool, p: Ports)
    requires PortsOk(p)
  {
    && (p.max - p.min < TWO_16 - 2 ==> taken(p.curr))
    && (p.max - p.min < MAX_ATTEMPTS && InRange(p.curr, p.min, p.max) ==> forall q :: InRange(q, p.min, p.max) ==> taken(q))
    && (MAX_ATTEMPTS <= p.max - p.min < TWO_16 - 2 ==>
         if InRange(p.curr, p.min, p.max)
         then forall k: nat :: k < MAX_ATTEMPTS ==> taken(Around(p.curr, p.min, p.max, k))
         else forall q :: p.min <= q < p.min + MAX_ATTEMPTS - 1 ==> taken(q))
  }

  lemma WideTaken(taken: nat -> bool, p: Ports, random: seq<nat>)
    requires PortsOk(p) && AllTaken(taken, PortsTried(p.curr, p.min, p.max, random))
    requires MAX_ATTEMPTS <= p.max - p.min < TWO_16 - 2
    ensures InRange(p.curr, p.min, p.max) ==> forall k: nat :: k < MAX_ATTEMPTS ==> taken(Around(p.curr, p.min, p.max, k))
    ensures !InRange(p.curr, p.min, p.max) ==> forall q :: p.min <= q < p.min + MAX_ATTEMPTS - 1 ==> taken(q)
  {
    hide PortsTried, Around;
    var tried := PortsTried(p.curr, p.min, p.max, random);
    if InRange(p.curr, p.min, p.max) {
      forall k: nat | k < MAX_ATTEMPTS ensures taken(Around(p.curr, p.min, p.max, k)) {
        TriedWide(p.curr, p.min, p.max, random, k);
        assert taken(tried[k]);
      }
    } else {
      forall q | p.min <= q < p.min + MAX_ATTEMPTS - 1 ensures taken(q) {
        TriedWide(p.curr, p.min, p.max, random, q - p.min + 1);
        assert taken(tried[q - p.min + 1]);
      }
    }
  }

  lemma SureTaken(taken: nat -> bool, p: Ports, random: seq<nat>)
    requires PortsOk(p) && AllTaken(taken, PortsTried(p.curr, p.min, p.max, random))
    ensures PortsInUse(taken, p)
  {
    hide PortsTried, Around;
    if p.max - p.min < TWO_16 - 2 { TriedFirst(p.curr, p.min, p.max, random); }
    if p.max - p.min < MAX_ATTEMPTS {
      forall q | InRange(p.curr, p.min, p.max) && InRange(q, p.min, p.max) ensures taken(q) {
        TriedSmall(p.curr, p.min, p.max, random, q);
      }
    } else if p.max - p.min < TWO_16 - 2 {
      WideTaken(taken, p, random);
    }
  }

  // ----- counting

  const INVALID_ZONE := -2
  const DEFAULT_ZONE := -1
  const MAX_ZONE := 0xFFFF

  datatype ZoneLimit = ZoneLimit(limit: nat, count: nat, seqNo: nat)

  /** The connections that were admitted under this limit. */
  function Admitted(live: map<nat, Conn>, zone: int, seqNo: nat): set<nat> {
    set id | id in live && live[id].admitZone == zone && live[id].zoneSeq == seqNo
  }

  lemma AdmittedAdd(live: map<nat, Conn>, c: Conn, zone: int, seqNo: nat)
    requires c.id !in live
    ensures |Admitted(live[c.id := c], zone, seqNo)| ==
      |Admitted(live, zone, seqNo)| + if c.admitZone == zone && c.zoneSeq == seqNo then 1 else 0
  {
    var was, now := Admitted(live, zone, seqNo), Admitted(live[c.id := c], zone, seqNo);
    if c.admitZone == zone && c.zoneSeq == seqNo {
      assert now == was + {c.id};
    } else {
      assert now == was;
    }
  }

  lemma AdmittedDrop(live: map<nat, Conn>, id: nat, zone: int, seqNo: nat)
    requires id in live
    ensures |Admitted(live - {id}, zone, seqNo)| ==
      |Admitted(live, zone, seqNo)| - if live[id].admitZone == zone && live[id].zoneSeq == seqNo then 1 else 0
  {
    var was, now := Admitted(live, zone, seqNo), Admitted(live - {id}, zone, seqNo);
    assert now == was - {id};
    assert id in was <==> live[id].admitZone == zone && live[id].zoneSeq == seqNo;
  }

  /** Each limit counts the connections admitted under it; no connection has the number of a limit that
      is yet to come. */
  ghost predicate ZonesOk(limits: map<int, ZoneLimit>, nextSeq: nat, live: map<nat, Conn>) {
    && (forall z :: z in limits ==>
          && DEFAULT_ZONE <= z <= MAX_ZONE && limits[z].seqNo < nextSeq
          && limits[z].count == |Admitted(live, z, limits[z].seqNo)|)
    && (forall id :: id in live ==> live[id].admitZone == INVALID_ZONE || live[id].zoneSeq < nextSeq)
  }

  lemma ZonesAdd(limits: map<int, ZoneLimit>, nextSeq: nat, live: map<nat, Conn>, c: Conn)
    requires ZonesOk(limits, nextSeq, live) && c.id !in live
    requires c.admitZone == INVALID_ZONE || (c.admitZone in limits && c.zoneSeq == limits[c.admitZone].seqNo)
    ensures
      var limits' := if c.admitZone == INVALID_ZONE then limits
                     else limits[c.admitZone := limits[c.admitZone].(count := limits[c.admitZone].count + 1)];
      ZonesOk(limits', nextSeq, live[c.id := c])
  {
    forall z | z in limits
      ensures |Admitted(live[c.id := c], z, limits[z].seqNo)| == limits[z].count + if c.admitZone == z then 1 else 0
    {
      AdmittedAdd(live, c, z, limits[z].seqNo);
    }
  }

  lemma ZonesRelimit(limits: map<int, ZoneLimit>, nextSeq: nat, live: map<nat, Conn>, zone: int, limit: nat)
    requires ZonesOk(limits, nextSeq, live) && zone in limits
    ensures ZonesOk(limits[zone := limits[zone].(limit := limit)], nextSeq, live)
  {
    hide Admitted;
  }

  lemma ZonesCreate(limits: map<int, ZoneLimit>, nextSeq: nat, live: map<nat, Conn>, zone: int, limit: nat)
    requires ZonesOk(limits, nextSeq, live) && zone !in limits && DEFAULT_ZONE <= zone <= MAX_ZONE
    ensures ZonesOk(limits[zone := ZoneLimit(limit, 0, nextSeq)], nextSeq + 1, live)
  {
    NoneYet(nextSeq, live, zone);
    hide Admitted;
  }

  /** Cleaning a connection up takes it off the count of its limit, unless that has been deleted or
      replaced since. */
  lemma ZonesDrop(limits: map<int, ZoneLimit>, nextSeq: nat, live: map<nat, Conn>, id: nat)
    requires ZonesOk(limits, nextSeq, live) && id in live
    ensures
      var z, s := live[id].admitZone, live[id].zoneSeq;
      var counted := z in limits && limits[z].seqNo == s;
      && (counted ==> limits[z].count > 0)
      && ZonesOk(if counted then limits[z := limits[z].(count := limits[z].count - 1)] else limits, nextSeq, live - {id})
  {
    forall z | z in limits
      ensures |Admitted(live - {id}, z, limits[z].seqNo)| ==
        limits[z].count - if live[id].admitZone == z && live[id].zoneSeq == limits[z].seqNo then 1 else 0
    {
      AdmittedDrop(live, id, z, limits[z].seqNo);
    }
    var z, s := live[id].admitZone, live[id].zoneSeq;
    if z in limits && limits[z].seqNo == s {
      assert id in Admitted(live, z, s);
    }
  }

  lemma ZonesSane(limits: map<int, ZoneLimit>, nextSeq: nat, live: map<nat, Conn>)
    requires ZonesOk(limits, nextSeq, live)
    ensures INVALID_ZONE !in limits && forall z :: z in limits ==> DEFAULT_ZONE <= z
  {
  }

  lemma NoneYet(nextSeq: nat, live: map<nat, Conn>, zone: int)
    requires zone != INVALID_ZONE
    requires forall id :: id in live ==> live[id].admitZone == INVALID_ZONE || live[id].zoneSeq < nextSeq
    ensures Admitted(live, zone, nextSeq) == {}
  {
  }

  // ----- the table and the connections in it

  /** The entry belongs to a connection and is under the hash of its key. */
  predicate Belongs(h: Hashing, live: map<nat, Conn>, hash: nat, e: Conn) {
    && e.id in live && h.Of(e.key) == hash
    && (e == live[e.id] || (live[e.id].translated && e == live[e.id].Partner()))
  }

  predicate Present(t: Table, h: Hashing, live: map<nat, Conn>, id: nat)
    requires id in live
  {
    var c := live[id];
    && c.id == id && !c.unNat && c in Chain(t, h.Of(c.key))
    && (c.translated ==> c.Partner() in Chain(t, h.Of(c.revKey)))
  }

  /** The table has the entries of the connections, each once, and no others. */
  ghost predicate TableOk(t: Table, h: Hashing, live: map<nat, Conn>) {
    && (forall hash, e :: hash in t && e in t[hash] ==> Belongs(h, live, hash, e))
    && (forall id :: id in live ==> Present(t, h, live, id))
    && (forall hash :: hash in t ==> NoRepeats(t[hash]))
  }

  /** A new entry goes in front of a chain that does not have it. */
  lemma Pushed(t: Table, hash: nat, e: Conn)
    requires (forall g :: g in t ==> NoRepeats(t[g])) && e !in Chain(t, hash)
    ensures forall g :: g in Push(t, hash, e) ==> NoRepeats(Push(t, hash, e)[g])
    ensures forall g, x :: x in Chain(Push(t, hash, e), g) <==> x in Chain(t, g) || (g == hash && x == e)
  {
  }

  lemma TableCommit(t: Table, h: Hashing, live: map<nat, Conn>, c: Conn)
    requires TableOk(t, h, live) && c.id !in live && !c.unNat
    ensures TableOk(Commit(t, h, c), h, live[c.id := c])
  {
    hide Push, NoRepeats;
    var live' := live[c.id := c];
    var t1 := if c.translated then Push(t, h.Of(c.revKey), c.Partner()) else t;
    var t' := Commit(t, h, c);
    forall hash, e | e in Chain(t, hash) ensures Belongs(h, live, hash, e) {}
    if c.translated { Pushed(t, h.Of(c.revKey), c.Partner()); }
    Pushed(t1, h.Of(c.key), c);
    forall hash, e | hash in t' && e in t'[hash] ensures Belongs(h, live', hash, e) {
      assert e in Chain(t', hash);
      if e in Chain(t, hash) { assert Belongs(h, live, hash, e); }
    }
    forall id | id in live' ensures Present(t', h, live', id) {
      if id != c.id { assert Present(t, h, live, id); }
    }
  }

  /** The chain without the entries of one connection. */
  function Without(chain: seq<Conn>, e: Conn): seq<Conn> {
    if chain == [] then []
    else if chain[0] == e then chain[1..]
    else [chain[0]] + Without(chain[1..], e)
  }

  lemma {:induction false} WithoutMembers(chain: seq<Conn>, e: Conn)
    requires NoRepeats(chain)
    ensures NoRepeats(Without(chain, e)) && forall x :: x in Without(chain, e) <==> x in chain && x != e
    decreases |chain|
  {
    if chain != [] {
      assert chain == [chain[0]] + chain[1..];
      WithoutMembers(chain[1..], e);
      assert chain[0] !in Without(chain[1..], e);
      InFront(chain[0], Without(chain[1..], e));
    }
  }

  function Remove(t: Table, hash: nat, e: Conn): Table {
    t[hash := Without(Chain(t, hash), e)]
  }

  function RemoveConn(t: Table, h: Hashing, c: Conn): Table {
    var t1 := Remove(t, h.Of(c.key), c);
    if c.translated then Remove(t1, h.Of(c.revKey), c.Partner()) else t1
  }

  lemma RemovedFrom(t: Table, hash: nat, e: Conn)
    requires forall g :: g in t ==> NoRepeats(t[g])
    ensures forall g :: g in Remove(t, hash, e) ==> NoRepeats(Remove(t, hash, e)[g])
    ensures forall g, x :: x in Chain(Remove(t, hash, e), g) <==> x in Chain(t, g) && (g != hash || x != e)
  {
    WithoutMembers(Chain(t, hash), e);
  }

  lemma TableRemove(t: Table, h: Hashing, live: map<nat, Conn>, id: nat)
    requires TableOk(t, h, live) && id in live
    ensures TableOk(RemoveConn(t, h, live[id]), h, live - {id})
  {
    hide Remove, NoRepeats;
    var c := live[id];
    var t1 := Remove(t, h.Of(c.key), c);
    var t' := RemoveConn(t, h, c);
    assert Present(t, h, live, id);
    RemovedFrom(t, h.Of(c.key), c);
    if c.translated { RemovedFrom(t1, h.Of(c.revKey), c.Partner()); }
    forall hash, e | hash in t' && e in t'[hash] ensures Belongs(h, live - {id}, hash, e) {
      assert e in Chain(t', hash);
      assert e in Chain(t, hash);
      assert Belongs(h, live, hash, e);
    }
    forall g | g in live - {id} ensures Present(t', h, live - {id}, g) {
      assert Present(t, h, live, g);
    }
  }

  // ----- the tracker

  lemma CommitAllowed(t: Table, h: Hashing, c: Conn, live: map<nat, Conn>, now: int)
    requires (forall hash, e :: e in Chain(t, hash) ==> e.id in live) && c.id !in live && !c.unNat && now < c.expiration
    requires !InUse(t, h, c.key, now)
    requires if c.translated then !InUse(t, h, c.revKey, now) else c.revKey == c.key.Reverse()
    ensures MayCommit(t, h, c, now)
  {
    hide Search;
  }

  lemma ZonesDelete(limits: map<int, ZoneLimit>, nextSeq: nat, live: map<nat, Conn>, zone: int)
    requires ZonesOk(limits, nextSeq, live)
    ensures ZonesOk(limits - {zone}, nextSeq, live)
  {
    hide Admitted;
  }

  // ----- since when a limit counts

  /** The connections of the zone that were committed since its limit was made. */
  ghost function CommittedSince(live: map<nat, Conn>, times: map<nat, nat>, zone: int, made: nat): set<nat> {
    set id | id in live && id in times && live[id].key.zone == zone && times[id] >= made
  }

  /** The limit of a zone counts just the connections of the zone that were committed since it was made. */
  ghost predicate SinceOk(limits: map<int, ZoneLimit>, live: map<nat, Conn>, times: map<nat, nat>, made: map<int, nat>,
                          clock: nat) {
    && times.Keys == live.Keys && made.Keys == limits.Keys
    && (forall id :: id in times ==> times[id] < clock) && (forall z :: z in made ==> made[z] <= clock)
    && forall z :: z in limits && z != DEFAULT_ZONE ==>
         Admitted(live, z, limits[z].seqNo) == CommittedSince(live, times, z, made[z])
  }

  lemma SinceCommit(limits: map<int, ZoneLimit>, limits': map<int, ZoneLimit>, live: map<nat, Conn>, times: map<nat, nat>,
                    made: map<int, nat>, clock: nat, c: Conn)
    requires SinceOk(limits, live, times, made, clock) && c.id !in live
    requires limits'.Keys == limits.Keys && forall z :: z in limits ==> limits'[z].seqNo == limits[z].seqNo
    requires c.key.zone in limits ==> c.admitZone == c.key.zone && c.zoneSeq == limits[c.admitZone].seqNo
    requires c.key.zone !in limits ==> c.admitZone == DEFAULT_ZONE || c.admitZone == INVALID_ZONE
    requires forall z :: z in limits ==> DEFAULT_ZONE <= z
    ensures SinceOk(limits', live[c.id := c], times[c.id := clock], made, clock + 1)
  {
    var live', times' := live[c.id := c], times[c.id := clock];
    forall z | z in limits && z != DEFAULT_ZONE
      ensures Admitted(live', z, limits'[z].seqNo) == CommittedSince(live', times', z, made[z])
    {
      var one := if c.key.zone == z then {c.id} else {};
      assert Admitted(live', z, limits[z].seqNo) == Admitted(live, z, limits[z].seqNo) + one;
      assert CommittedSince(live', times', z, made[z]) == CommittedSince(live, times, z, made[z]) + one;
    }
  }

  lemma SinceClean(limits: map<int, ZoneLimit>, limits': map<int, ZoneLimit>, live: map<nat, Conn>, times: map<nat, nat>,
                   made: map<int, nat>, clock: nat, id: nat)
    requires SinceOk(limits, live, times, made, clock) && id in live
    requires limits'.Keys == limits.Keys && forall z :: z in limits ==> limits'[z].seqNo == limits[z].seqNo
    ensures SinceOk(limits', live - {id}, times - {id}, made, clock)
  {
    forall z | z in limits && z != DEFAULT_ZONE
      ensures Admitted(live - {id}, z, limits'[z].seqNo) == CommittedSince(live - {id}, times - {id}, z, made[z])
    {
      assert Admitted(live - {id}, z, limits[z].seqNo) == Admitted(live, z, limits[z].seqNo) - {id};
      assert CommittedSince(live - {id}, times - {id}, z, made[z]) == CommittedSince(live, times, z, made[z]) - {id};
    }
  }

  lemma SinceCreate(limits: map<int, ZoneLimit>, nextSeq: nat, live: map<nat, Conn>, times: map<nat, nat>,
                    made: map<int, nat>, clock: nat, zone: int, limit: nat)
    requires SinceOk(limits, live, times, made, clock) && ZonesOk(limits, nextSeq, live)
    requires zone !in limits && DEFAULT_ZONE <= zone
    ensures SinceOk(limits[zone := ZoneLimit(limit, 0, nextSeq)], live, times, made[zone := clock], clock)
  {
    assert CommittedSince(live, times, zone, clock) == {};
    assert Admitted(live, zone, nextSeq) == {};
  }

  lemma SinceRelimit(limits: map<int, ZoneLimit>, live: map<nat, Conn>, times: map<nat, nat>, made: map<int, nat>,
                     clock: nat, zone: int, limit: nat)
    requires SinceOk(limits, live, times, made, clock) && zone in limits
    ensures SinceOk(limits[zone := limits[zone].(limit := limit)], live, times, made, clock)
  {
    hide Admitted, CommittedSince;
  }

  lemma SinceDelete(limits: map<int, ZoneLimit>, live: map<nat, Conn>, times: map<nat, nat>, made: map<int, nat>,
                    clock: nat, zone: int)
    requires SinceOk(limits, live, times, made, clock)
    ensures SinceOk(limits - {zone}, live, times, made - {zone}, clock)
  {
    hide Admitted, CommittedSince;
  }

  lemma SinceLive(limits: map<int, ZoneLimit>, live: map<nat, Conn>, times: map<nat, nat>, made: map<int, nat>, clock: nat)
    requires SinceOk(limits, live, times, made, clock)
    ensures times.Keys == live.Keys
  {
  }

  /** The limit that counts a connection of the zone: that of the zone, or else that of the default zone. */
  function LimitFor(limits: map<int, ZoneLimit>, zone: nat): Option<int> {
    if zone in limits then Some(zone) else if DEFAULT_ZONE in limits then Some(DEFAULT_ZONE) else None
  }

  /** The limits with one more, or one less, connection under the limit of a zone. */
  function Counted(limits: map<int, ZoneLimit>, zone: int, delta: int): (r: map<int, ZoneLimit>)
    requires zone in limits && limits[zone].count + delta >= 0
    ensures r.Keys == limits.Keys && forall z :: z in limits ==> r[z].seqNo == limits[z].seqNo
  {
    limits[zone := limits[zone].(count := limits[zone].count + delta)]
  }

  /** The connection is counted by one limit: that of its zone, or else the default one, or by none if there is
      neither. */
  predicate CountedIn(limits: map<int, ZoneLimit>, limits': map<int, ZoneLimit>, c: Conn) {
    match LimitFor(limits, c.key.zone)
    case None => limits' == limits && c.admitZone == INVALID_ZONE
    case Some(z) => limits' == Counted(limits, z, 1) && c.admitZone == z && c.zoneSeq == limits[z].seqNo
  }

  /** The connection is taken off the count of the limit that counts it, if that is still there. */
  predicate CountedOut(limits: map<int, ZoneLimit>, limits': map<int, ZoneLimit>, c: Conn) {
    if c.admitZone in limits && limits[c.admitZone].seqNo == c.zoneSeq
    then limits[c.admitZone].count > 0 && limits' == Counted(limits, c.admitZone, -1)
    else limits' == limits
  }

  /** No count is over its limit. */
  predicate NoneOver(limits: map<int, ZoneLimit>) {
    forall z :: z in limits ==> limits[z].count <= limits[z].limit
  }

  lemma CountUp(limits: map<int, ZoneLimit>, zone: int)
    requires zone in limits
    ensures Counted(limits, zone, 1) == limits[zone := limits[zone].(count := limits[zone].count + 1)]
  {
  }

  lemma CountDown(limits: map<int, ZoneLimit>, zone: int)
    requires zone in limits && limits[zone].count > 0
    ensures Counted(limits, zone, -1) == limits[zone := limits[zone].(count := limits[zone].count - 1)]
    ensures NoneOver(limits) ==> limits[zone].count - 1 <= limits[zone].limit
  {
  }

  lemma NoneOverCounted(limits: map<int, ZoneLimit>, zone: int, delta: int)
    requires zone in limits && 0 <= limits[zone].count + delta && NoneOver(limits)
    ensures limits[zone].count + delta <= limits[zone].limit ==> NoneOver(Counted(limits, zone, delta))
  {
  }

  /** What a connection that is counted keeps. */
  lemma EnterCounts(limits: map<int, ZoneLimit>, limits': map<int, ZoneLimit>, nextSeq: nat, live: map<nat, Conn>,
                    times: map<nat, nat>, made: map<int, nat>, clock: nat, c: Conn)
    requires ZonesOk(limits, nextSeq, live) && SinceOk(limits, live, times, made, clock) && c.id !in live
    requires CountedIn(limits, limits', c)
    requires var z := LimitFor(limits, c.key.zone); z.Some? ==> limits[z.value].count < limits[z.value].limit
    ensures ZonesOk(limits', nextSeq, live[c.id := c])
    ensures SinceOk(limits', live[c.id := c], times[c.id := clock], made, clock + 1)
    ensures NoneOver(limits) ==> NoneOver(limits')
  {
    hide ZonesOk, SinceOk, NoneOver, Counted;
    ZonesSane(limits, nextSeq, live);
    ZonesAdd(limits, nextSeq, live, c);
    SinceCommit(limits, limits', live, times, made, clock, c);
    var z := LimitFor(limits, c.key.zone);
    if z.Some? {
      CountUp(limits, z.value);
      if NoneOver(limits) { NoneOverCounted(limits, z.value, 1); }
    }
  }

  /** What a connection that is taken off the counts keeps. */
  lemma LeaveCounts(limits: map<int, ZoneLimit>, nextSeq: nat, live: map<nat, Conn>, times: map<nat, nat>,
                    made: map<int, nat>, clock: nat, id: nat)
    requires ZonesOk(limits, nextSeq, live) && SinceOk(limits, live, times, made, clock) && id in live
    ensures
      var z := live[id].admitZone;
      var counted := z in limits && limits[z].seqNo == live[id].zoneSeq;
      && (counted ==> limits[z].count > 0)
      && var limits' := if counted then Counted(limits, z, -1) else limits;
         && ZonesOk(limits', nextSeq, live - {id}) && SinceOk(limits', live - {id}, times - {id}, made, clock)
         && (NoneOver(limits) ==> NoneOver(limits'))
  {
    hide ZonesOk, SinceOk, NoneOver, Counted;
    ZonesDrop(limits, nextSeq, live, id);
    var z := live[id].admitZone;
    if z in limits && limits[z].seqNo == live[id].zoneSeq {
      CountDown(limits, z);
      if NoneOver(limits) { NoneOverCounted(limits, z, -1); }
      SinceClean(limits, Counted(limits, z, -1), live, times, made, clock, id);
    } else {
      SinceClean(limits, limits, live, times, made, clock, id);
    }
  }

  function LessZone<V>(m: map<int, V>, zone: int): map<int, V> {
    m - {zone}
  }

  lemma DeleteCounts(limits: map<int, ZoneLimit>, nextSeq: nat, live: map<nat, Conn>, times: map<nat, nat>,
                     made: map<int, nat>, clock: nat, zone: int)
    requires ZonesOk(limits, nextSeq, live) && SinceOk(limits, live, times, made, clock)
    ensures ZonesOk(LessZone(limits, zone), nextSeq, live) && SinceOk(LessZone(limits, zone), live, times, LessZone(made, zone), clock)
    ensures NoneOver(limits) ==> NoneOver(LessZone(limits, zone))
    ensures zone !in limits ==> LessZone(limits, zone) == limits
  {
    hide ZonesOk, SinceOk;
    SinceDelete(limits, live, times, made, clock, zone);
    ZonesDelete(limits, nextSeq, live, zone);
  }

  lemma OneMore(live: map<nat, Conn>, reclaimed: set<nat>, c: Conn)
    requires c.id !in live && reclaimed !! live.Keys
    ensures |live[c.id := c]| == |live| + 1 && reclaimed - {c.id} !! live[c.id := c].Keys
  {
    assert live[c.id := c].Keys == live.Keys + {c.id};
    assert |live| == |live.Keys| && |live[c.id := c]| == |live[c.id := c].Keys|;
  }

  class Conntrack {
    const hashing: Hashing
    var conns: Table
    var nConn: nat
    var nConnLimit: nat
    var zoneLimits: map<int, ZoneLimit>
    var zoneLimitSeq: nat
    /** The connections whose cleaning up has begun. */
    var reclaimed: set<nat>
    /** The connections that have not been cleaned up, by what identifies them. */
    ghost var live: map<nat, Conn>
    /** How many connections have been committed, when each of those was, and when each limit was made. */
    ghost var clock: nat
    ghost var times: map<nat, nat>
    ghost var made: map<int, nat>

    ghost predicate Valid()
      reads this
    {
      && nConn == |live| && reclaimed !! live.Keys
      && ZonesOk(zoneLimits, zoneLimitSeq, live)
      && SinceOk(zoneLimits, live, times, made, clock)
      && TableOk(conns, hashing, live)
    }

    /** No count is over its limit. */
    predicate Within()
      reads this
    {
      nConn <= nConnLimit && NoneOver(zoneLimits)
    }

    constructor (hashing: Hashing, nConnLimit: nat)
      ensures Valid() && Within() && live == map[]
    {
      this.hashing, this.nConnLimit := hashing, nConnLimit;
      conns, nConn, reclaimed := map[], 0, {};
      zoneLimits, zoneLimitSeq := map[], 0;
      live, clock, times, made := map[], 0, map[], map[];
    }

    /** However limits come and go, that of a zone counts the connections of the zone that were committed since it was
        made, and if no limit is ever lowered there are never more of them than it says. */
    lemma ZoneLimitBinds(zone: int)
      requires Valid() && zone in zoneLimits && zone != DEFAULT_ZONE
      ensures zone in made
      ensures zoneLimits[zone].count == |CommittedSince(live, times, zone, made[zone])|
      ensures Within() ==> |CommittedSince(live, times, zone, made[zone])| <= zoneLimits[zone].limit
    {
      hide TableOk, CommittedSince, Admitted;
    }

    method SetMaxConns(limit: nat)
      requires Valid()
      modifies `nConnLimit
      ensures Valid() && nConnLimit == limit
      ensures old(Within()) && limit >= old(nConnLimit) ==> Within()
    {
      hide TableOk, ZonesOk, SinceOk, NoneOver;
      nConnLimit := limit;
    }

    /** The limit of the zone, or that of the default zone. */
    method ZoneLimitOrDefault(zone: nat) returns (r: Option<int>)
      requires Valid()
      ensures r == LimitFor(zoneLimits, zone)
    {
      if zone in zoneLimits { return Some(zone); }
      if DEFAULT_ZONE in zoneLimits { return Some(DEFAULT_ZONE); }
      return None;
    }

    /** Changes the limit of a zone, or makes one, which then counts from zero: connections that were
        admitted under an earlier limit of the zone do not count. */
    method ZoneLimitUpdate(zone: int, limit: nat) returns (ok: bool)
      requires Valid()
      modifies `zoneLimits, `zoneLimitSeq, `made
      ensures Valid()
      ensures made == if zone !in old(zoneLimits) && ok then old(made)[zone := clock] else old(made)
      ensures ok <==> zone in old(zoneLimits) || DEFAULT_ZONE <= zone <= MAX_ZONE
      ensures ok ==> zone in zoneLimits && zoneLimits == old(zoneLimits)[zone := zoneLimits[zone]] && zoneLimits[zone].limit == limit
      ensures ok && zone !in old(zoneLimits) ==> zoneLimits[zone].count == 0 && zoneLimits[zone].seqNo == old(zoneLimitSeq)
      ensures ok && zone in old(zoneLimits) ==> zoneLimits[zone].count == old(zoneLimits)[zone].count
      ensures !ok ==> zoneLimits == old(zoneLimits)
      ensures old(Within()) && (zone in old(zoneLimits) ==> limit >= old(zoneLimits)[zone].limit) ==> Within()
    {
      hide TableOk, ZonesOk, SinceOk;
      if zone in zoneLimits {
        SinceRelimit(zoneLimits, live, times, made, clock, zone, limit);
        ZonesRelimit(zoneLimits, zoneLimitSeq, live, zone, limit);
        zoneLimits := zoneLimits[zone := zoneLimits[zone].(limit := limit)];
        return true;
      }
      if DEFAULT_ZONE <= zone <= MAX_ZONE {
        SinceCreate(zoneLimits, zoneLimitSeq, live, times, made, clock, zone, limit);
        ZonesCreate(zoneLimits, zoneLimitSeq, live, zone, limit);
        made := made[zone := clock];
        zoneLimits := zoneLimits[zone := ZoneLimit(limit, 0, zoneLimitSeq)];
        zoneLimitSeq := zoneLimitSeq + 1;
        return true;
      }
      return false;
    }

    method ZoneLimitDelete(zone: nat)
      requires Valid()
      modifies `zoneLimits, `made
      ensures Valid() && zoneLimits == LessZone(old(zoneLimits), zone) && made == LessZone(old(made), zone)
      ensures old(Within()) ==> Within()
    {
      hide TableOk, ZonesOk, SinceOk, NoneOver, LessZone;
      DeleteCounts(zoneLimits, zoneLimitSeq, live, times, made, clock, zone);
      if zone in zoneLimits {
        zoneLimits := LessZone(zoneLimits, zone);
      }
      made := LessZone(made, zone);
    }

    /** Whether the limits leave room for one more connection in the zone. */
    predicate Admits(zone: nat)
      reads this
    {
      && nConn < nConnLimit
      && (zone in zoneLimits ==> zoneLimits[zone].count < zoneLimits[zone].limit)
      && (zone !in zoneLimits && DEFAULT_ZONE in zoneLimits ==>
            zoneLimits[DEFAULT_ZONE].count < zoneLimits[DEFAULT_ZONE].limit)
    }

    /** Puts the entries of a connection into the table. */
    method Insert(c: Conn)
      modifies `conns
      ensures conns == ConnTable.Commit(old(conns), hashing, c)
    {
      hide Push;
      if c.translated {
        conns := Push(conns, hashing.Of(c.revKey), c.Partner());
      }
      conns := Push(conns, hashing.Of(c.key), c);
    }

    method CountUnder(zone: Option<int>)
      requires zone.Some? ==> zone.value in zoneLimits
      modifies `zoneLimits
      ensures zoneLimits == if zone.Some? then Counted(old(zoneLimits), zone.value, 1) else old(zoneLimits)
    {
      if zone.Some? {
        var l := zoneLimits[zone.value];
        zoneLimits := zoneLimits[zone.value := l.(count := l.count + 1)];
      }
    }

    /** Puts a connection into the table and counts it. */
    method Enter(c: Conn, zone: Option<int>)
      requires Valid() && c.id !in live && !c.unNat && nConn < nConnLimit
      requires zone.Some? ==> zone.value in zoneLimits && zoneLimits[zone.value].count < zoneLimits[zone.value].limit
      requires c.admitZone == (if zone.Some? then zone.value else INVALID_ZONE)
      requires zone.Some? ==> c.zoneSeq == zoneLimits[zone.value].seqNo
      requires zone == LimitFor(zoneLimits, c.key.zone)
      modifies this
      ensures zoneLimits == if zone.Some? then Counted(old(zoneLimits), zone.value, 1) else old(zoneLimits)
      ensures made == old(made) && times == old(times)[c.id := old(clock)] && clock == old(clock) + 1
      ensures nConn == old(nConn) + 1 && reclaimed == old(reclaimed) - {c.id}
      ensures Valid() && live == old(live)[c.id := c] && conns == ConnTable.Commit(old(conns), hashing, c)
      ensures old(Within()) ==> Within()
      ensures zoneLimitSeq == old(zoneLimitSeq) && nConnLimit == old(nConnLimit)
    {
      hide TableOk, ZonesOk, SinceOk, Push, NoneOver, Counted, ConnTable.Commit;
      ghost var limits := if zone.Some? then Counted(zoneLimits, zone.value, 1) else zoneLimits;
      TableCommit(conns, hashing, live, c);
      EnterCounts(zoneLimits, limits, zoneLimitSeq, live, times, made, clock, c);
      OneMore(live, reclaimed, c);
      Insert(c);
      nConn, reclaimed := nConn + 1, reclaimed - {c.id};
      CountUnder(zone);
      live, times, clock := live[c.id := c], times[c.id := clock], clock + 1;
    }

    /** Commits the connection of a packet whose key no connection has.  Fails, and changes nothing, if
        a limit is reached or no unique translation is found. */
    method Commit(key: Key, info: Option<NatInfo>, id: nat, now: int, expiration: int, hash: nat, random: seq<nat>)
      returns (r: Option<Conn>, pkt: Key)
      requires Valid() && id !in live && now < expiration && !InUse(conns, hashing, key, now)
      requires info.Some? ==> info.value.Ok(key.dlType == ETH_TYPE_IP) && hash < TWO_32 && |random| >= 8
      requires key.HasPorts() ==> key.src.port < TWO_16 && key.dst.port < TWO_16
      modifies this
      ensures Valid() && (old(Within()) ==> Within())
      ensures r.None? ==> unchanged(this) && pkt == key
      ensures nConnLimit == old(nConnLimit) && zoneLimitSeq == old(zoneLimitSeq) && made == old(made)
      ensures r.Some? ==>
        && nConn == old(nConn) + 1 && times == old(times)[id := old(clock)] && clock == old(clock) + 1
        && CountedIn(old(zoneLimits), zoneLimits, r.value)
      ensures r.Some? ==> old(Admits(key.zone)) && r.value.id == id && r.value.key == key && !r.value.unNat
                          && live == old(live)[id := r.value] && conns == ConnTable.Commit(old(conns), hashing, r.value)
                          && r.value.expiration == expiration
      ensures r.Some? ==> MayCommit(old(conns), hashing, r.value, now)
      ensures r.Some? && info.Some? ==>
        && r.value.translated && r.value.action == info.value.action
        && TranslatesTo(key, r.value.action, r.value.revKey) && !InUse(old(conns), hashing, r.value.revKey, now)
        && pkt == NatPacket(key, r.value, false)
      ensures r.Some? && info.None? ==> !r.value.translated && r.value.revKey == key.Reverse() && pkt == key
      ensures r.None? <==>
        !old(Admits(key.zone)) || (info.Some? && Exhausted(old(conns), hashing, key, info.value, hash, now, random))
    {
      hide TableOk, ZonesOk, SinceOk, Search, TranslatesTo, NatPacket, MayCommit, NoneOver;
      var zone := ZoneLimitOrDefault(key.zone);
      if zone.Some? && zoneLimits[zone.value].count >= zoneLimits[zone.value].limit { return None, key; }
      if nConn >= nConnLimit { return None, key; }
      var rev, action := key.Reverse(), NatAction(false, false, false, false);
      if info.Some? {
        action := info.value.action;
        var ok;
        ok, rev := UniqueTuple(conns, hashing, key, info.value, hash, now, random);
        if !ok { return None, key; }
      }
      var c := Conn(id, key, rev, action, info.Some?, false, expiration,
                    if zone.Some? then zone.value else INVALID_ZONE,
                    if zone.Some? then zoneLimits[zone.value].seqNo else 0);
      pkt := if info.Some? then NatPacket(key, c, false) else key;
      TableIds(conns, hashing, live);
      CommitAllowed(conns, hashing, c, live, now);
      Enter(c, zone);
      r := Some(c);
    }

    /** Cleans a connection up, once: both its entries leave the table, and it is taken off the counts
        that it is in. */
    method Clean(c: Conn)
      requires Valid() && (c.id in live ==> c == live[c.id]) && (c.id in live || c.id in reclaimed)
      modifies this
      ensures Valid() && live == old(live) - {c.id} && (old(Within()) ==> Within())
      ensures forall hash, e :: e in Chain(conns, hash) ==> e.id != c.id
      ensures conns == if c.id in old(live) then RemoveConn(old(conns), hashing, c) else old(conns)
      ensures nConn == if c.id in old(live) then old(nConn) - 1 else old(nConn)
      ensures nConnLimit == old(nConnLimit) && zoneLimitSeq == old(zoneLimitSeq) && made == old(made) && clock == old(clock)
      ensures times == old(times) - {c.id} && reclaimed == old(reclaimed) + {c.id}
      ensures if c.id in old(live) then CountedOut(old(zoneLimits), zoneLimits, c) else zoneLimits == old(zoneLimits)
    {
      hide TableOk, ZonesOk, SinceOk, RemoveConn, Chain, CountedOut, NoneOver;
      SinceLive(zoneLimits, live, times, made, clock);
      if c.id in reclaimed {
        assert live - {c.id} == live && times - {c.id} == times;
      } else {
        reclaimed := reclaimed + {c.id};
        Leave(c);
      }
      TableIds(conns, hashing, live);
    }

    /** Takes a connection out of the table and off the counts. */
    method Leave(c: Conn)
      requires nConn == |live| && ZonesOk(zoneLimits, zoneLimitSeq, live) && TableOk(conns, hashing, live)
      requires SinceOk(zoneLimits, live, times, made, clock)
      requires c.id in live && c == live[c.id]
      modifies `conns, `zoneLimits, `nConn, `live, `times
      ensures live == old(live) - {c.id} && conns == RemoveConn(old(conns), hashing, c) && nConn == old(nConn) - 1
      ensures nConn == |live| && ZonesOk(zoneLimits, zoneLimitSeq, live) && TableOk(conns, hashing, live)
      ensures SinceOk(zoneLimits, live, times, made, clock) && times == old(times) - {c.id}
      ensures CountedOut(old(zoneLimits), zoneLimits, c)
      ensures old(Within()) ==> Within()
    {
      hide TableOk, ZonesOk, SinceOk, RemoveConn, NoneOver, Counted;
      LeaveCounts(zoneLimits, zoneLimitSeq, live, times, made, clock, c.id);
      TableRemove(conns, hashing, live, c.id);
      OneLess(live, c.id);
      conns := RemoveConn(conns, hashing, c);
      if c.admitZone in zoneLimits && zoneLimits[c.admitZone].seqNo == c.zoneSeq {
        CountDown(zoneLimits, c.admitZone);
        var l := zoneLimits[c.admitZone];
        zoneLimits := zoneLimits[c.admitZone := l.(count := l.count - 1)];
      }
      nConn := nConn - 1;
      live, times := live - {c.id}, times - {c.id};
    }
  }

  lemma TableIds(t: Table, h: Hashing, live: map<nat, Conn>)
    requires TableOk(t, h, live)
    ensures forall hash, e :: e in Chain(t, hash) ==> e.id in live
  {
    forall hash, e | e in Chain(t, hash) ensures e.id in live {
      assert Belongs(h, live, hash, e);
    }
  }

  lemma OneLess(live: map<nat, Conn>, id: nat)
    requires id in live
    ensures |live - {id}| == |live| - 1
  {
    assert live.Keys == (live - {id}).Keys + {id};
    assert |live| == |live.Keys| && |live - {id}| == |(live - {id}).Keys|;
  }
}
