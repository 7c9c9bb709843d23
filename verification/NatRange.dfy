/** Choosing an address and a port for network address translation. */
module NatRange {
  import opened Numbers

  // ----- addresses

  type Half = x: nat | x < TWO_64

  /** An IPv6 address as two 64-bit halves; an IPv4 address is in the low one. */
  datatype Addr = Addr(hi: Half, lo: Half) {
    function Value(): nat {
      hi * TWO_64 + lo
    }
  }

  /** The address with this value. */
  function AddrAt(v: nat): (r: Addr)
    requires v < TWO_64 * TWO_64
    ensures r.Value() == v
  {
    Addr(v / TWO_64, v % TWO_64)
  }

  /** No two addresses have the same value. */
  lemma SameValue(a: Addr, b: Addr)
    requires a.Value() == b.Value()
    ensures a == b
  {
  }

  /** The difference of two addresses, cut down to 32 bits. */
  method AddrsDelta(min: Addr, max: Addr) returns (r: nat)
    requires min.Value() <= max.Value()
    ensures r <= 0xffff_fffe
    ensures r == if max.Value() - min.Value() > 0xffff_fffe then 0xffff_fffe else max.Value() - min.Value()
  {
    var diff: nat;
    if min.hi == max.hi && min.lo <= max.lo {
      diff := max.lo - min.lo;
    } else if (min.hi + 1) % TWO_64 == max.hi && min.lo > max.lo {
      diff := TWO_64 - 1 - (min.lo - max.lo - 1);
    } else {
      diff := 0xffff_fffe;
    }
    if diff > 0xffff_fffe {
      diff := 0xffff_fffe;
    }
    r := diff;
  }

  /** Adds to an address, with the carry between its halves.  The addition does not overflow 128 bits:
      that is the branch the program declares unreachable. */
  method AddrIncrement(a: Addr, increment: nat) returns (r: Addr)
    requires increment < TWO_32 && a.Value() + increment < TWO_64 * TWO_64
    ensures r.Value() == a.Value() + increment
  {
    if TWO_64 - 1 - increment >= a.lo {
      r := Addr(a.hi, increment + a.lo);
    } else {
      assert a.hi != TWO_64 - 1;
      r := Addr(1 + a.hi, increment - (TWO_64 - 1 - a.lo + 1));
    }
  }

  /** One of the `n` numbers from `min` on, picked by `x`. */
  function Pick(min: nat, n: nat, x: nat): (r: nat)
    requires n > 0
    ensures min <= r < min + n
  {
    min + x % n
  }

  /** An address from the range, picked by the hash. */
  method AddrInRange(min: Addr, max: Addr, hash: nat, ipv4: bool) returns (r: Addr)
    requires hash < TWO_32 && 0 < min.Value() <= max.Value()
    requires ipv4 ==> max.Value() < TWO_32
    ensures min.Value() <= r.Value() <= max.Value()
    ensures r.Value() == Pick(min.Value(), Min(max.Value() - min.Value(), 0xffff_fffe) + 1, hash)
  {
    hide Wrap32;
    if ipv4 {
      assert max.hi == 0 && min.hi == 0;
      var range := Wrap32(max.lo - min.lo + 1);
      r := Addr(0, Wrap32(Pick(min.lo, range, hash)));
    } else {
      var delta := AddrsDelta(min, max);
      PickShifted(min.Value(), delta + 1, hash);
      hide Pick;
      r := AddrIncrement(min, Pick(0, delta + 1, hash));
    }
  }

  /** Hashes below `n` pick `n` different numbers, and the hashes go round. */
  lemma PickSpreads(min: nat, n: nat, x: nat)
    requires n > 0
    ensures x < n ==> Pick(min, n, x) == min + x
    ensures Pick(min, n, x + n) == Pick(min, n, x)
  {
    RoundAgain(n, x);
    if x < n { Small(x, n); }
  }

  /** Every number of the range is picked. */
  lemma PickCovers(min: nat, n: nat, v: nat) returns (x: nat)
    requires min <= v < min + n
    ensures x < n && Pick(min, n, x) == v
  {
    x := v - min;
    PickSpreads(min, n, x);
  }

  lemma Small(x: nat, n: nat)
    requires x < n
    ensures x % n == x
  {
    Divide(0, n, x);
  }

  lemma RoundAgain(n: nat, x: nat)
    requires n > 0
    ensures (x + n) % n == x % n
  {
    var q, r := x / n, x % n;
    assert x == q * n + r && x + n == (q + 1) * n + r;
    Divide(q + 1, n, r);
  }

  lemma PickShifted(min: nat, n: nat, x: nat)
    requires n > 0
    ensures Pick(min, n, x) == min + Pick(0, n, x)
  {
  }

  /** Arithmetic in 32 bits. */
  function Wrap32(x: nat): (r: nat)
    ensures r < TWO_32 && (x < TWO_32 ==> r == x)
  {
    x % TWO_32
  }

  // ----- ports

  const MAX_ATTEMPTS := 128

  predicate InRange(curr: nat, min: nat, max: nat) {
    min <= curr <= max
  }

  function NextPort(curr: nat, min: nat, max: nat): nat {
    if !InRange(curr, min, max) || curr == max then min else curr + 1
  }

  /** The port that is tried after `k` others. */
  function NthPort(curr: nat, min: nat, max: nat, k: nat): nat {
    if k == 0 then curr else NextPort(NthPort(curr, min, max, k - 1), min, max)
  }

  /** How often the loop over the ports goes round at most, as a 16-bit number. */
  function LoopCount(curr: nat, min: nat, max: nat): nat
    requires min <= max
  {
    (if InRange(curr, min, max) then max - min + 1 else max - min + 2) % TWO_16
  }

  /** The number of ports in the range, as a 16-bit number. */
  function RangeSize(min: nat, max: nat): (r: nat)
    requires min <= max < TWO_16
    ensures r == if max - min + 1 == TWO_16 then 0 else max - min + 1
  {
    (max - min + 1) % TWO_16
  }

  function Min(a: nat, b: nat): nat {
    if a < b then a else b
  }

  /** The ports that one round tries. */
  function Tries(curr: nat, min: nat, max: nat, attempts: nat): nat
    requires min <= max
  {
    Min(LoopCount(curr, min, max), attempts)
  }

  lemma {:induction false} NthInRange(curr: nat, min: nat, max: nat, k: nat)
    requires min <= max
    ensures k > 0 || InRange(curr, min, max) ==> InRange(NthPort(curr, min, max, k), min, max)
    decreases k
  {
    if k > 0 {
      NthInRange(curr, min, max, k - 1);
    }
  }

  /** All of them are taken. */
  predicate AllTaken<T>(taken: T -> bool, s: seq<T>) {
    forall i :: 0 <= i < |s| ==> taken(s[i])
  }

  /** `x` is the first that is not taken. */
  ghost predicate FirstFree<T>(taken: T -> bool, s: seq<T>, x: T) {
    !taken(x) && exists i :: 0 <= i < |s| && s[i] == x && AllTaken(taken, s[..i])
  }

  /** The first free one of a sequence is that of any longer one. */
  lemma FreeInLonger<T>(taken: T -> bool, s: seq<T>, t: seq<T>, x: T)
    requires FirstFree(taken, s, x)
    ensures FirstFree(taken, s + t, x)
  {
    var i :| 0 <= i < |s| && s[i] == x && AllTaken(taken, s[..i]);
    assert (s + t)[..i] == s[..i];
  }

  lemma FreeAfterTaken<T>(taken: T -> bool, s: seq<T>, t: seq<T>, x: T)
    requires AllTaken(taken, s) && FirstFree(taken, t, x)
    ensures FirstFree(taken, s + t, x)
  {
    var i :| 0 <= i < |t| && t[i] == x && AllTaken(taken, t[..i]);
    assert (s + t)[..|s| + i] == s + t[..i] && (s + t)[|s| + i] == x;
  }

  /** The ports that one round tries, in order. */
  function RoundPorts(curr: nat, min: nat, max: nat, attempts: nat): (r: seq<nat>)
    requires min <= max
    ensures |r| == Tries(curr, min, max, attempts)
    ensures forall k :: 0 <= k < |r| ==> r[k] == NthPort(curr, min, max, k)
  {
    seq(Tries(curr, min, max, attempts), k requires 0 <= k => NthPort(curr, min, max, k))
  }

  /** The ports of the rounds that follow one of `attempts` ports: each starts at random, with half as many. */
  function MorePorts(min: nat, max: nat, attempts: nat, range: nat, random: seq<nat>): seq<nat>
    requires min <= max
    decreases attempts
  {
    if attempts < range && attempts >= 16 && random != [] then
      RoundPorts(Pick(min, range, random[0]), min, max, attempts / 2) +
      MorePorts(min, max, attempts / 2, range, random[1..])
    else []
  }

  /** All the ports that a search tries, in order. */
  function PortsTried(curr: nat, min: nat, max: nat, random: seq<nat>): seq<nat>
    requires min <= max < TWO_16
  {
    var range := RangeSize(min, max);
    var attempts := Min(range, MAX_ATTEMPTS);
    RoundPorts(curr, min, max, attempts) + MorePorts(min, max, attempts, range, random)
  }

  /** One round: up to `attempts` ports, until one is free. */
  method TryRound(taken: nat -> bool, curr: nat, min: nat, max: nat, attempts: nat) returns (ok: bool, port: nat)
    requires min <= max
    ensures ok ==> FirstFree(taken, RoundPorts(curr, min, max, attempts), port)
    ensures !ok ==> AllTaken(taken, RoundPorts(curr, min, max, attempts))
  {
    ghost var ports := RoundPorts(curr, min, max, attempts);
    var i := 0;
    port := curr;
    var idx := LoopCount(curr, min, max);
    while idx > 0
      invariant 0 <= idx && idx + i == LoopCount(curr, min, max) && i <= |ports|
      invariant port == NthPort(curr, min, max, i)
      invariant AllTaken(taken, ports[..i])
    {
      if i >= attempts { return false, port; }
      if !taken(port) {
        return true, port;
      }
      assert ports[i] == port;
      i := i + 1;
      port := NextPort(port, min, max);
      idx := idx - 1;
    }
    ok := false;
  }

  /** The port `k` places after `curr`, going round the range. */
  function Around(curr: nat, min: nat, max: nat, k: nat): nat
    requires min <= curr <= max
  {
    min + (curr - min + k) % (max - min + 1)
  }

  /** From a start in the range, the ports are tried in a circle. */
  lemma {:induction false} Circle(curr: nat, min: nat, max: nat, k: nat)
    requires min <= curr <= max
    ensures NthPort(curr, min, max, k) == Around(curr, min, max, k)
    decreases k
  {
    var n := max - min + 1;
    if k > 0 {
      Circle(curr, min, max, k - 1);
      var x := curr - min + k - 1;
      CircleStep(x, n);
    }
  }

  lemma CircleStep(x: nat, n: nat)
    requires n > 0
    ensures (x + 1) % n == if x % n == n - 1 then 0 else x % n + 1
  {
    var q, r := x / n, x % n;
    assert x == q * n + r;
    if r == n - 1 {
      assert x + 1 == (q + 1) * n;
      Divide(q + 1, n, 0);
    } else {
      Divide(q, n, r + 1);
    }
  }

  lemma Divide(q: nat, n: nat, r: nat)
    requires r < n
    ensures (q * n + r) % n == r
  {
    var x := q * n + r;
    var d := x / n - q;
    assert x == (x / n) * n + x % n;
    assert d * n == r - x % n by {
      assert (x / n) * n - q * n == d * n;
    }
    Multiple(d, n);
  }

  lemma Multiple(d: int, n: nat)
    ensures d > 0 ==> d * n >= n
    ensures d < 0 ==> d * n <= 0 - n
  {
  }

  /** Every port of the range comes up in one turn of the circle. */
  lemma Covers(curr: nat, min: nat, max: nat, p: nat) returns (k: nat)
    requires min <= curr <= max && min <= p <= max
    ensures k < max - min + 1 && NthPort(curr, min, max, k) == p
  {
    var n := max - min + 1;
    k := if p >= curr then p - curr else p + n - curr;
    Circle(curr, min, max, k);
    if p >= curr {
      Divide(0, n, p - min);
    } else {
      Divide(1, n, p - min);
    }
  }

  /** Looks for a port that is not taken: the first free one of those that the search tries.  The search
      ends within five rounds, and if it finds nothing the port is the one it started from. */
  method UniquePort(taken: nat -> bool, curr: nat, min: nat, max: nat, random: seq<nat>)
    returns (ok: bool, port: nat, rounds: nat)
    requires min <= max < TWO_16 && curr < TWO_16 && |random| >= 4
    ensures rounds <= 5 && port < TWO_16
    ensures ok ==> FirstFree(taken, PortsTried(curr, min, max, random), port)
    ensures ok ==> !taken(port) && (port == curr || InRange(port, min, max))
    ensures !ok ==> AllTaken(taken, PortsTried(curr, min, max, random)) && port == curr
  {
    hide NthPort, Pick, RangeSize, FirstFree, AllTaken, PortsTried, MorePorts, RoundPorts;
    var range := RangeSize(min, max);
    var attempts := Min(range, MAX_ATTEMPTS);
    rounds := 1;
    ok, port := TryRound(taken, curr, min, max, attempts);
    ghost var done := RoundPorts(curr, min, max, attempts);
    AllPorts(curr, min, max, random);
    assert random[0..] == random;
    while !ok && attempts < range && attempts >= 16
      invariant 1 <= rounds <= 5 && 0 <= attempts <= Bound(rounds)
      invariant if ok then FirstFree(taken, done, port) else AllTaken(taken, done)
      invariant PortsTried(curr, min, max, random) == done + MorePorts(min, max, attempts, range, random[rounds - 1..])
      decreases attempts
    {
      NextRound(min, max, attempts, range, random, rounds, done);
      var start := Pick(min, range, random[rounds - 1]);
      ghost var round := RoundPorts(start, min, max, attempts / 2);
      attempts := attempts / 2;
      ok, port := TryRound(taken, start, min, max, attempts);
      Onward(taken, done, round, ok, port);
      done := done + round;
      rounds := rounds + 1;
    }
    if ok {
      FreeInLonger(taken, done, MorePorts(min, max, attempts, range, random[rounds - 1..]), port);
      FreeIsTried(taken, curr, min, max, random, port);
    } else {
      NoMoreRounds(min, max, attempts, range, random[rounds - 1..], done);
      port := curr;
    }
  }

  lemma AllPorts(curr: nat, min: nat, max: nat, random: seq<nat>)
    requires min <= max < TWO_16
    ensures
      var range := RangeSize(min, max);
      var attempts := Min(range, MAX_ATTEMPTS);
      PortsTried(curr, min, max, random) ==
        RoundPorts(curr, min, max, attempts) + MorePorts(min, max, attempts, range, random)
  {
  }

  lemma NextRound(min: nat, max: nat, attempts: nat, range: nat, random: seq<nat>, rounds: nat, done: seq<nat>)
    requires min <= max && 16 <= attempts < range && 0 < rounds <= |random|
    ensures
      var round := RoundPorts(Pick(min, range, random[rounds - 1]), min, max, attempts / 2);
      done + MorePorts(min, max, attempts, range, random[rounds - 1..]) ==
        (done + round) + MorePorts(min, max, attempts / 2, range, random[rounds..])
  {
    hide RoundPorts, Pick;
    assert random[rounds - 1..][1..] == random[rounds..];
  }

  lemma NoMoreRounds(min: nat, max: nat, attempts: nat, range: nat, random: seq<nat>, done: seq<nat>)
    requires min <= max && !(attempts < range && attempts >= 16)
    ensures done + MorePorts(min, max, attempts, range, random) == done
  {
  }

  lemma Onward(taken: nat -> bool, done: seq<nat>, round: seq<nat>, ok: bool, port: nat)
    requires AllTaken(taken, done)
    requires if ok then FirstFree(taken, round, port) else AllTaken(taken, round)
    ensures if ok then FirstFree(taken, done + round, port) else AllTaken(taken, done + round)
  {
    if ok {
      FreeAfterTaken(taken, done, round, port);
    }
  }

  lemma FreeIsTried(taken: nat -> bool, curr: nat, min: nat, max: nat, random: seq<nat>, port: nat)
    requires min <= max < TWO_16 && FirstFree(taken, PortsTried(curr, min, max, random), port)
    ensures !taken(port) && (port == curr || InRange(port, min, max))
  {
    hide PortsTried;
    TriedPorts(curr, min, max, random);
  }

  function Bound(rounds: nat): nat {
    match rounds
    case 1 => 128
    case 2 => 64
    case 3 => 32
    case 4 => 16
    case _ => 8
  }

  // ----- which ports a search tries

  lemma RoundIn(curr: nat, min: nat, max: nat, attempts: nat)
    requires min <= max
    ensures forall p :: p in RoundPorts(curr, min, max, attempts) ==> p == curr || InRange(p, min, max)
    ensures InRange(curr, min, max) ==> forall p :: p in RoundPorts(curr, min, max, attempts) ==> InRange(p, min, max)
  {
    hide NthPort;
    var r := RoundPorts(curr, min, max, attempts);
    forall k | 0 <= k < |r| ensures r[k] == curr || InRange(r[k], min, max)
      ensures InRange(curr, min, max) ==> InRange(r[k], min, max)
    {
      if k == 0 { Zeroth(curr, min, max); }
      NthInRange(curr, min, max, k);
    }
  }

  lemma {:induction false} MoreIn(min: nat, max: nat, attempts: nat, range: nat, random: seq<nat>)
    requires min <= max && range <= max - min + 1
    ensures forall p :: p in MorePorts(min, max, attempts, range, random) ==> InRange(p, min, max)
    decreases attempts
  {
    hide RoundPorts, Pick;
    if attempts < range && attempts >= 16 && random != [] {
      RoundIn(Pick(min, range, random[0]), min, max, attempts / 2);
      MoreIn(min, max, attempts / 2, range, random[1..]);
    }
  }

  /** They are all in the range, but for the start. */
  lemma TriedPorts(curr: nat, min: nat, max: nat, random: seq<nat>)
    requires min <= max < TWO_16
    ensures forall p :: p in PortsTried(curr, min, max, random) ==> p == curr || InRange(p, min, max)
  {
    hide RoundPorts, MorePorts;
    var range := RangeSize(min, max);
    RoundIn(curr, min, max, Min(range, MAX_ATTEMPTS));
    MoreIn(min, max, Min(range, MAX_ATTEMPTS), range, random);
  }

  /** In a range of at most 128 ports they are all those of the range.  A start outside would take the place of
      the last. */
  lemma TriedSmall(curr: nat, min: nat, max: nat, random: seq<nat>, p: nat)
    requires min <= max < TWO_16 && max - min < MAX_ATTEMPTS
    ensures p in PortsTried(curr, min, max, random) <==>
      if InRange(curr, min, max) then InRange(p, min, max) else p == curr || (InRange(p, min, max) && p != max)
  {
    hide RoundPorts, NthPort;
    TriedPorts(curr, min, max, random);
    var round := RoundPorts(curr, min, max, max - min + 1);
    assert PortsTried(curr, min, max, random) == round + [];
    if InRange(curr, min, max) {
      if InRange(p, min, max) {
        var k := Covers(curr, min, max, p);
        assert round[k] == p;
      }
    } else {
      SmallOutside(curr, min, max, p);
    }
  }

  lemma SmallOutside(curr: nat, min: nat, max: nat, p: nat)
    requires min <= max < TWO_16 && max - min < MAX_ATTEMPTS && !InRange(curr, min, max)
    ensures p in RoundPorts(curr, min, max, max - min + 1) <==> p == curr || (InRange(p, min, max) && p != max)
  {
    hide NthPort;
    var round := RoundPorts(curr, min, max, max - min + 1);
    forall k | 0 <= k < |round| ensures round[k] == if k == 0 then curr else min + k - 1 {
      if k > 0 { FromOutside(curr, min, max, k); } else { Zeroth(curr, min, max); }
    }
    if p == curr {
      assert round[0] == p;
    } else if InRange(p, min, max) && p != max {
      assert round[p - min + 1] == p;
    }
  }

  /** In a wider range the first 128 of them follow the start; they go round the range, and from a start
      outside it they are the first ones of the range. */
  lemma TriedWide(curr: nat, min: nat, max: nat, random: seq<nat>, k: nat)
    requires min <= max < TWO_16 && MAX_ATTEMPTS <= max - min < TWO_16 - 2 && k < MAX_ATTEMPTS
    ensures
      var tried := PortsTried(curr, min, max, random);
      && |tried| >= MAX_ATTEMPTS
      && (InRange(curr, min, max) ==> tried[k] == Around(curr, min, max, k))
      && (!InRange(curr, min, max) ==> tried[k] == if k == 0 then curr else min + k - 1)
  {
    hide NthPort, MorePorts, Around;
    assert |RoundPorts(curr, min, max, MAX_ATTEMPTS)| == MAX_ATTEMPTS;
    assert PortsTried(curr, min, max, random)[k] == NthPort(curr, min, max, k);
    if InRange(curr, min, max) {
      Circle(curr, min, max, k);
    } else if k > 0 {
      FromOutside(curr, min, max, k);
    } else {
      Zeroth(curr, min, max);
    }
  }

  /** In a range of more than 128 ports the search tries 248: 128 from the start on, and then 64, 32, 16 and 8, each
      time from a port that the random numbers pick. */
  lemma TriedRounds(curr: nat, min: nat, max: nat, random: seq<nat>)
    requires min <= max < TWO_16 && MAX_ATTEMPTS <= max - min < TWO_16 - 2 && |random| >= 4
    ensures
      var tried, n := PortsTried(curr, min, max, random), max - min + 1;
      && |tried| == 248
      && tried[..128] == RoundPorts(curr, min, max, 128)
      && tried[128..192] == RoundPorts(Pick(min, n, random[0]), min, max, 64)
      && tried[192..224] == RoundPorts(Pick(min, n, random[1]), min, max, 32)
      && tried[224..240] == RoundPorts(Pick(min, n, random[2]), min, max, 16)
      && tried[240..] == RoundPorts(Pick(min, n, random[3]), min, max, 8)
  {
    hide Pick;
    var n := max - min + 1;
    RoundSize(curr, min, max, 128);
    RoundSize(Pick(min, n, random[0]), min, max, 64);
    RoundSize(Pick(min, n, random[1]), min, max, 32);
    RoundSize(Pick(min, n, random[2]), min, max, 16);
    RoundSize(Pick(min, n, random[3]), min, max, 8);
    hide RoundPorts;
    var last := RoundPorts(Pick(min, n, random[3]), min, max, 8);
    var fourth := RoundPorts(Pick(min, n, random[2]), min, max, 16) + last;
    var third := RoundPorts(Pick(min, n, random[1]), min, max, 32) + fourth;
    var second := RoundPorts(Pick(min, n, random[0]), min, max, 64) + third;
    MoreOnce(min, max, 8, n, random[4..]);
    MoreOnce(min, max, 16, n, random[3..]);
    MoreOnce(min, max, 32, n, random[2..]);
    MoreOnce(min, max, 64, n, random[1..]);
    MoreOnce(min, max, 128, n, random);
    assert random[1..][1..] == random[2..] && random[2..][1..] == random[3..] && random[3..][1..] == random[4..];
    assert MorePorts(min, max, 128, n, random) == second;
  }

  lemma RoundSize(curr: nat, min: nat, max: nat, attempts: nat)
    requires min <= max && attempts <= MAX_ATTEMPTS <= max - min < TWO_16 - 2
    ensures |RoundPorts(curr, min, max, attempts)| == attempts
  {
  }

  lemma MoreOnce(min: nat, max: nat, attempts: nat, range: nat, random: seq<nat>)
    requires min <= max && attempts < range
    ensures attempts < 16 ==> MorePorts(min, max, attempts, range, random) == []
    ensures attempts >= 16 && random != [] ==>
      MorePorts(min, max, attempts, range, random) ==
        RoundPorts(Pick(min, range, random[0]), min, max, attempts / 2) + MorePorts(min, max, attempts / 2, range, random[1..])
  {
  }

  /** The start is tried first, in all but the largest ranges. */
  lemma TriedFirst(curr: nat, min: nat, max: nat, random: seq<nat>)
    requires min <= max < TWO_16 && max - min < TWO_16 - 2
    ensures PortsTried(curr, min, max, random) != [] && PortsTried(curr, min, max, random)[0] == curr
  {
    hide MorePorts;
    var round := RoundPorts(curr, min, max, Min(RangeSize(min, max), MAX_ATTEMPTS));
    assert |round| > 0 && round[0] == curr;
  }

  lemma {:induction false} FromOutside(curr: nat, min: nat, max: nat, k: nat)
    requires min <= max && !InRange(curr, min, max) && 0 < k <= max - min + 1
    ensures NthPort(curr, min, max, k) == min + k - 1
    decreases k
  {
    if k > 1 {
      FromOutside(curr, min, max, k - 1);
    }
  }

  lemma Zeroth(curr: nat, min: nat, max: nat)
    ensures NthPort(curr, min, max, 0) == curr
  {
  }
}
