/** The breadth-first search for a displacement route.  It keeps no record of the buckets it has been
    to, yet the route it finds never comes to a bucket twice: a search that reaches a bucket again
    has nothing to find there that it did not find the first time. */
module RouteSearch {
  import opened Cuckoo
  import opened Displacement
  import opened Wrappers

  const MAX_DEPTH := 4
  const MAX_QUEUE := 500

  /** A way from `start` to `end` through `slots`. */
  datatype Path = Path(start: nat, end: nat, slots: seq<nat>)

  /** A path is a starting point, or one step on from the path that its parent is. */
  ghost predicate Linked<V>(t: Table<V>, homes: Homes, q: seq<Path>, par: seq<int>, k: nat)
    requires |par| == |q| && k < |q|
  {
    && q[k].end < |t| && Full(t[q[k].end]) && par[k] < k
    && if par[k] < 0 then q[k].slots == [] && q[k].start == q[k].end
       else
         var p, n := q[par[k]], |q[k].slots| - 1;
         && n >= 0 && p.end < |t| && q[k].slots[n] < |t[p.end]|
         && q[k] == Path(p.start, Next(t, homes, p.end, q[k].slots[n]), p.slots + [q[k].slots[n]])
  }

  /** No path before the `k`-th ends at the same bucket. */
  predicate First(q: seq<Path>, k: nat)
    requires k < |q|
  {
    forall j :: 0 <= j < k ==> q[j].end != q[k].end
  }

  ghost predicate Tree<V>(t: Table<V>, homes: Homes, q: seq<Path>, par: seq<int>) {
    && |par| == |q| && (forall k :: 0 <= k < |q| ==> par[k] < k && q[k].end < |t|)
    && (forall k :: 0 <= k < |q| ==> Linked(t, homes, q, par, k))
    && (forall k :: 0 <= k < |q| && par[k] >= 0 && First(q, k) ==> First(q, par[k]))
    && (forall j, k :: 0 <= j < k < |q| ==> |q[j].slots| <= |q[k].slots|)
  }

  /** A path of at most `n` steps ends at `b`. */
  predicate Reached(q: seq<Path>, b: nat, n: nat) {
    exists k :: 0 <= k < |q| && q[k].end == b && |q[k].slots| <= n
  }

  /** What slot `i` of the bucket where the `p`-th path ends leads to has been dealt with. */
  ghost predicate Explored<V>(t: Table<V>, homes: Homes, q: seq<Path>, p: nat, i: nat)
    requires p < |q| && q[p].end < |t| && i < |t[q[p].end]|
  {
    var next := Next(t, homes, q[p].end, i);
    next != q[p].end ==>
      && next < |t| && Full(t[next])
      && (|q[p].slots| < MAX_DEPTH && |q| < MAX_QUEUE ==> Reached(q, next, |q[p].slots| + 1))
  }

  /** The paths before the `tail`-th are dealt with, and the `tail`-th up to slot `n`. */
  ghost predicate Searched<V>(t: Table<V>, homes: Homes, q: seq<Path>, par: seq<int>, tail: nat, n: nat) {
    && Tree(t, homes, q, par)
    && (forall k :: 0 <= k < |q| ==> par[k] <= tail)
    && (forall p, i :: 0 <= p < |q| && q[p].end < |t| && 0 <= i < |t[q[p].end]| && (p < tail || (p == tail && i < n)) ==>
          Explored(t, homes, q, p, i))
  }

  lemma ExploredGrows<V>(t: Table<V>, homes: Homes, q: seq<Path>, x: Path, p: nat, i: nat)
    requires p < |q| && q[p].end < |t| && i < |t[q[p].end]| && Explored(t, homes, q, p, i)
    ensures Explored(t, homes, q + [x], p, i)
  {
    var next := Next(t, homes, q[p].end, i);
    if Reached(q, next, |q[p].slots| + 1) {
      var k :| 0 <= k < |q| && q[k].end == next && |q[k].slots| <= |q[p].slots| + 1;
      assert (q + [x])[k] == q[k];
    }
  }

  /** If the path that is extended is not the first to its bucket, the extension is not the first to
      its bucket either. */
  lemma NotFirst<V>(t: Table<V>, homes: Homes, q: seq<Path>, par: seq<int>, tail: nat, i: nat)
    requires tail < |q| < MAX_QUEUE && Searched(t, homes, q, par, tail, i)
    requires q[tail].end < |t| && i < |t[q[tail].end]| && |q[tail].slots| < MAX_DEPTH
    requires Next(t, homes, q[tail].end, i) != q[tail].end
    ensures First(q, tail) || exists k :: 0 <= k < |q| && q[k].end == Next(t, homes, q[tail].end, i)
  {
    if !First(q, tail) {
      var p :| 0 <= p < tail && q[p].end == q[tail].end;
      assert Explored(t, homes, q, p, i);
    }
  }

  lemma Extended<V>(t: Table<V>, homes: Homes, q: seq<Path>, par: seq<int>, tail: nat, i: nat)
    requires tail < |q| < MAX_QUEUE && Searched(t, homes, q, par, tail, i)
    requires q[tail].end < |t| && i < |t[q[tail].end]| && |q[tail].slots| < MAX_DEPTH
    requires
      var next := Next(t, homes, q[tail].end, i);
      next != q[tail].end && next < |t| && Full(t[next])
    ensures
      var x := Path(q[tail].start, Next(t, homes, q[tail].end, i), q[tail].slots + [i]);
      Searched(t, homes, q + [x], par + [tail], tail, i + 1)
  {
    var x := Path(q[tail].start, Next(t, homes, q[tail].end, i), q[tail].slots + [i]);
    var q', par' := q + [x], par + [tail as int];
    ExtendedTree(t, homes, q, par, tail, i);
    forall p, j | 0 <= p < |q'| && q'[p].end < |t| && 0 <= j < |t[q'[p].end]| && (p < tail || (p == tail && j < i + 1))
      ensures Explored(t, homes, q', p, j)
    {
      if p < tail || j < i {
        ExploredGrows(t, homes, q, x, p, j);
      } else {
        assert q'[|q|].end == x.end;
      }
    }
  }

  lemma ExtendedTree<V>(t: Table<V>, homes: Homes, q: seq<Path>, par: seq<int>, tail: nat, i: nat)
    requires tail < |q| < MAX_QUEUE && Searched(t, homes, q, par, tail, i)
    requires q[tail].end < |t| && i < |t[q[tail].end]| && |q[tail].slots| < MAX_DEPTH
    requires
      var next := Next(t, homes, q[tail].end, i);
      next != q[tail].end && next < |t| && Full(t[next])
    ensures
      var x := Path(q[tail].start, Next(t, homes, q[tail].end, i), q[tail].slots + [i]);
      Tree(t, homes, q + [x], par + [tail])
  {
    var x := Path(q[tail].start, Next(t, homes, q[tail].end, i), q[tail].slots + [i]);
    var q', par' := q + [x], par + [tail as int];
    NotFirst(t, homes, q, par, tail, i);
    forall k | 0 <= k < |q'| ensures Linked(t, homes, q', par', k) {
      if k < |q| { assert Linked(t, homes, q, par, k); }
    }
    forall k | 0 <= k < |q'| && par'[k] >= 0 && First(q', k) ensures First(q', par'[k]) {
      if k < |q| {
        forall j | 0 <= j < k ensures q[j].end != q[k].end { assert q'[j] == q[j]; }
        assert Linked(t, homes, q, par, k);
        assert First(q, par[k]);
      } else {
        Unreached(q, x);
      }
    }
    forall k | 0 <= k < |q| ensures |q[k].slots| <= |x.slots| {
      assert Linked(t, homes, q, par, k);
      assert par[k] >= 0 && par[k] < tail ==> |q[par[k]].slots| <= |q[tail].slots|;
    }
  }

  /** Along the first path to a bucket no bucket comes twice. */
  lemma {:induction false} FirstPath<V>(t: Table<V>, homes: Homes, q: seq<Path>, par: seq<int>, k: nat, c: seq<nat>)
    requires Tree(t, homes, q, par) && k < |q| && First(q, k)
    requires Follows(t, homes, c, q[k].slots) && c[0] == q[k].start
    ensures c[|c| - 1] == q[k].end
    ensures forall i :: 0 <= i < |c| ==> c[i] < |t| && Full(t[c[i]]) && EndOfSome(q, c[i], k)
    ensures forall i, j :: 0 <= i < j < |c| ==> c[i] != c[j]
    decreases k
  {
    assert Linked(t, homes, q, par, k);
    if par[k] >= 0 {
      var n := |c| - 1;
      assert q[k].slots[..n - 1] == q[par[k]].slots;
      FollowsHead(t, homes, c, q[k].slots, n - 1);
      FirstPath(t, homes, q, par, par[k], c[..n]);
      assert Hopped(t, homes, c, q[k].slots, n - 1);
      forall i | 0 <= i < n ensures EndOfSome(q, c[i], k) && c[i] != q[k].end {
        assert EndOfSome(q, c[..n][i], par[k]);
      }
    }
  }

  predicate EndOfSome(q: seq<Path>, b: nat, k: nat)
    requires k < |q|
  {
    exists a :: 0 <= a <= k && q[a].end == b
  }

  predicate Hopped<V>(t: Table<V>, homes: Homes, c: seq<nat>, slots: seq<nat>, k: nat)
    requires |c| == |slots| + 1 && k < |slots|
  {
    c[k] < |t| && slots[k] < |t[c[k]]| && c[k + 1] == Next(t, homes, c[k], slots[k])
  }

  /** `c` are the buckets that `slots` leads through. */
  predicate Follows<V>(t: Table<V>, homes: Homes, c: seq<nat>, slots: seq<nat>) {
    |c| == |slots| + 1 && forall k :: 0 <= k < |slots| ==> Hopped(t, homes, c, slots, k)
  }

  lemma FollowsHead<V>(t: Table<V>, homes: Homes, c: seq<nat>, slots: seq<nat>, n: nat)
    requires Follows(t, homes, c, slots) && n <= |slots|
    ensures Follows(t, homes, c[..n + 1], slots[..n])
  {
    var c', slots' := c[..n + 1], slots[..n];
    forall k | 0 <= k < n ensures Hopped(t, homes, c', slots', k) {
      assert Hopped(t, homes, c, slots, k);
    }
  }

  lemma Unreached(q: seq<Path>, x: Path)
    requires First(q + [x], |q|)
    ensures forall k :: 0 <= k < |q| ==> q[k].end != x.end
  {
    forall k | 0 <= k < |q| ensures q[k].end != x.end {
      assert (q + [x])[k] == q[k];
    }
  }

  // ----- what a search that fails has seen

  ghost predicate Roots(q: seq<Path>, b1: nat, b2: nat) {
    && q != [] && q[0] == Path(b1, b1, [])
    && (b1 != b2 ==> |q| > 1 && q[1] == Path(b2, b2, []))
  }

  /** Every way of at most `n` steps from `b1` or `b2` ends at a full bucket. */
  ghost predicate AllFull<V>(t: Table<V>, homes: Homes, b1: nat, b2: nat, n: nat) {
    forall c, slots :: Follows(t, homes, c, slots) && (c[0] == b1 || c[0] == b2) && |slots| <= n ==>
      c[|slots|] < |t| && Full(t[c[|slots|]])
  }

  lemma {:induction false} WayReached<V>(t: Table<V>, homes: Homes, q: seq<Path>, par: seq<int>, b1: nat, b2: nat,
                                         c: seq<nat>, slots: seq<nat>)
    requires Searched(t, homes, q, par, |q|, 0) && Roots(q, b1, b2)
    requires Follows(t, homes, c, slots) && (c[0] == b1 || c[0] == b2)
    requires slots != [] ==> |slots| <= MAX_DEPTH && |q| < MAX_QUEUE
    ensures Reached(q, c[|slots|], |slots|)
    decreases |slots|
  {
    if slots != [] {
      var n := |slots| - 1;
      FollowsHead(t, homes, c, slots, n);
      WayReached(t, homes, q, par, b1, b2, c[..n + 1], slots[..n]);
      var k :| 0 <= k < |q| && q[k].end == c[..n + 1][n] && |q[k].slots| <= n;
      assert Hopped(t, homes, c, slots, n);
      assert Explored(t, homes, q, k, slots[n]);
      if c[n + 1] != c[n] {
        var k' :| 0 <= k' < |q| && q[k'].end == c[n + 1] && |q[k'].slots| <= |q[k].slots| + 1;
      } else {
        assert q[k].end == c[n + 1];
      }
    }
  }

  /** If the search fails, every way of one step leads to a full bucket, and so does every way that is not
      too long unless the queue filled up. */
  lemma FailedFull<V>(t: Table<V>, homes: Homes, q: seq<Path>, par: seq<int>, b1: nat, b2: nat)
    requires Searched(t, homes, q, par, |q|, 0) && Roots(q, b1, b2)
    ensures AllFull(t, homes, b1, b2, if |q| < MAX_QUEUE then MAX_DEPTH + 1 else 1)
  {
    forall c, slots | Follows(t, homes, c, slots) && (c[0] == b1 || c[0] == b2)
                      && |slots| <= (if |q| < MAX_QUEUE then MAX_DEPTH + 1 else 1)
      ensures c[|slots|] < |t| && Full(t[c[|slots|]])
    {
      LastFull(t, homes, q, par, b1, b2, c, slots);
    }
  }

  lemma LastFull<V>(t: Table<V>, homes: Homes, q: seq<Path>, par: seq<int>, b1: nat, b2: nat, c: seq<nat>, slots: seq<nat>)
    requires Searched(t, homes, q, par, |q|, 0) && Roots(q, b1, b2)
    requires Follows(t, homes, c, slots) && (c[0] == b1 || c[0] == b2)
    requires |slots| <= if |q| < MAX_QUEUE then MAX_DEPTH + 1 else 1
    ensures c[|slots|] < |t| && Full(t[c[|slots|]])
  {
    if slots == [] {
      var k := if c[0] == b1 then 0 else 1;
      assert Linked(t, homes, q, par, k);
    } else {
      var n := |slots| - 1;
      FollowsHead(t, homes, c, slots, n);
      WayReached(t, homes, q, par, b1, b2, c[..n + 1], slots[..n]);
      var k :| 0 <= k < |q| && q[k].end == c[..n + 1][n] && |q[k].slots| <= n;
      assert Hopped(t, homes, c, slots, n);
      assert Explored(t, homes, q, k, slots[n]) && Linked(t, homes, q, par, k);
    }
  }

  // ----- the search itself

  /** The first slot that is not in use. */
  method FindEmptySlot<V>(b: Bucket<V>) returns (r: Option<nat>)
    ensures r.None? <==> Full(b)
    ensures r.Some? ==>
      r.value < |b| && b[r.value].value.None? && forall s :: 0 <= s < r.value ==> b[s].value.Some?
  {
    for i := 0 to |b|
      invariant forall s :: 0 <= s < i ==> b[s].value.Some?
    {
      if b[i].value.None? { return Some(i); }
    }
    return None;
  }

  /** The full sequence of buckets of a path. */
  method FollowPath<V>(t: Table<V>, homes: Homes, ghost width: nat, start: nat, slots: seq<nat>) returns (c: seq<nat>)
    requires Shape(t, homes, width) && start < |t| && forall s :: s in slots ==> s < width
    ensures c != [] && c[0] == start && Follows(t, homes, c, slots)
    ensures forall i :: 0 <= i < |c| ==> c[i] < |t|
  {
    c := [start];
    for k := 0 to |slots|
      invariant |c| == k + 1 && c[0] == start && Follows(t, homes, c, slots[..k])
      invariant forall i :: 0 <= i < |c| ==> c[i] < |t|
    {
      ghost var was := c;
      assert slots[k] in slots;
      c := c + [Next(t, homes, c[k], slots[k])];
      ghost var slots' := slots[..k + 1];
      forall j | 0 <= j < k + 1 ensures Hopped(t, homes, c, slots', j) {
        if j < k { assert Hopped(t, homes, was, slots[..k], j); }
      }
    }
    assert slots[..|slots|] == slots;
  }

  ghost predicate SlotsOk(q: seq<Path>, width: nat, b1: nat, b2: nat) {
    forall k :: 0 <= k < |q| ==> (q[k].start == b1 || q[k].start == b2) && forall s :: s in q[k].slots ==> s < width
  }

  /** The route of a path that leads to a bucket with an empty slot. */
  method MakeRoute<V>(t: Table<V>, homes: Homes, ghost width: nat, q: seq<Path>, ghost par: seq<int>, tail: nat, i: nat, j: nat)
    returns (r: Route)
    requires Shape(t, homes, width) && tail < |q| && Searched(t, homes, q, par, tail, i) && i < width
    requires forall s :: s in q[tail].slots ==> s < width
    requires q[tail].start < |t|
    requires
      var next := Next(t, homes, q[tail].end, i);
      next != q[tail].end && j < width && t[next][j].value.None? && forall s :: 0 <= s < j ==> t[next][s].value.Some?
    ensures RouteOk(t, homes, r) && r.buckets[0] == q[tail].start
  {
    var slots := q[tail].slots + [i];
    var c := FollowPath(t, homes, width, q[tail].start, slots);
    r := Route(c, slots + [j]);
    RouteFound(t, homes, width, q, par, tail, i, j, c);
  }

  /** A bucket with an empty slot is found from the first path to its neighbour. */
  lemma TailIsFirst<V>(t: Table<V>, homes: Homes, q: seq<Path>, par: seq<int>, tail: nat, i: nat, j: nat)
    requires tail < |q| && Searched(t, homes, q, par, tail, i) && i < |t[q[tail].end]|
    requires
      var next := Next(t, homes, q[tail].end, i);
      next != q[tail].end && next < |t| && j < |t[next]| && t[next][j].value.None?
    ensures First(q, tail)
  {
    forall e | 0 <= e < tail ensures q[e].end != q[tail].end {
      assert q[e].end == q[tail].end ==> Explored(t, homes, q, e, i);
    }
  }

  lemma RouteFound<V>(t: Table<V>, homes: Homes, width: nat, q: seq<Path>, par: seq<int>, tail: nat, i: nat, j: nat, c: seq<nat>)
    requires Shape(t, homes, width) && tail < |q| && Searched(t, homes, q, par, tail, i) && i < width
    requires
      var next := Next(t, homes, q[tail].end, i);
      next != q[tail].end && j < width && t[next][j].value.None? && forall s :: 0 <= s < j ==> t[next][s].value.Some?
    requires Follows(t, homes, c, q[tail].slots + [i]) && c[0] == q[tail].start
    requires forall s :: s in q[tail].slots ==> s < width
    ensures RouteOk(t, homes, Route(c, q[tail].slots + [i] + [j]))
  {
    var p, n := q[tail], |q[tail].slots|;
    var r := Route(c, p.slots + [i] + [j]);
    TailIsFirst(t, homes, q, par, tail, i, j);
    FollowsHead(t, homes, c, p.slots + [i], n);
    assert (p.slots + [i])[..n] == p.slots;
    FirstPath(t, homes, q, par, tail, c[..n + 1]);
    assert c[..n + 1][n] == p.end;
    assert Hopped(t, homes, c, p.slots + [i], n);
    forall k | 0 <= k < n + 1 ensures c[k] < |t| && Full(t[c[k]]) && c[k] != c[n + 1] {
      assert c[..n + 1][k] == c[k];
    }
    forall k | 0 <= k < |r.slots| ensures r.buckets[k] < |t| && r.slots[k] < |t[r.buckets[k]]| {
      if k < n { assert p.slots[k] in p.slots; }
    }
    forall k | 0 <= k < |r.slots| - 1 ensures Hop(t, homes, r, k) {
      assert Hopped(t, homes, c, p.slots + [i], k);
    }
    forall a, b | 0 <= a < b < |c| ensures c[a] != c[b] {
      if b < n + 1 { assert c[..n + 1][a] != c[..n + 1][b]; }
    }
  }

  /** There are 500 paths through full buckets from `b1` and `b2`. */
  ghost predicate Crowded<V>(t: Table<V>, homes: Homes, b1: nat, b2: nat) {
    exists q, par :: |q| == 500 && Roots(q, b1, b2) && Tree(t, homes, q, par)
  }

  /** Every way of up to five steps from `b1` or `b2` ends at a full bucket; or every way of one step does, and
      there are too many to look at all. */
  ghost predicate NoWay<V>(t: Table<V>, homes: Homes, b1: nat, b2: nat) {
    AllFull(t, homes, b1, b2, 5) || (AllFull(t, homes, b1, b2, 1) && Crowded(t, homes, b1, b2))
  }

  /** Looks for a way to make room in `b1` or `b2`, which are both full. */
  method FindRoute<V>(t: Table<V>, homes: Homes, width: nat, b1: nat, b2: nat) returns (r: Option<Route>)
    requires Shape(t, homes, width) && b1 < |t| && b2 < |t| && Full(t[b1]) && Full(t[b2])
    ensures r.Some? ==> RouteOk(t, homes, r.value) && (r.value.buckets[0] == b1 || r.value.buckets[0] == b2)
    ensures r.None? ==> NoWay(t, homes, b1, b2)
  {
    var q := [Path(b1, b1, [])];
    ghost var par := [-1];
    if b1 != b2 {
      q := q + [Path(b2, b2, [])];
      par := par + [-1];
    }
    var tail := 0;
    while tail < |q|
      invariant tail <= |q| <= MAX_QUEUE
      invariant Searched(t, homes, q, par, tail, 0) && SlotsOk(q, width, b1, b2) && Roots(q, b1, b2)
      decreases MAX_QUEUE - tail
    {
      r, q, par := Expand(t, homes, width, q, par, tail, b1, b2);
      if r.Some? { return; }
      tail := tail + 1;
    }
    FailedFull(t, homes, q, par, b1, b2);
    return None;
  }

  /** The bucket where a path ends is full, and its slots lead to buckets of the table. */
  lemma EndsInTable<V>(t: Table<V>, homes: Homes, width: nat, q: seq<Path>, par: seq<int>, tail: nat, n: nat, i: nat)
    requires Shape(t, homes, width) && tail < |q| && Searched(t, homes, q, par, tail, n) && i < width
    ensures q[tail].end < |t| && |t[q[tail].end]| == width && Next(t, homes, q[tail].end, i) < |t|
  {
    assert Linked(t, homes, q, par, tail);
  }

  /** Slot `i` of the last path leads back, or to a full bucket that is too far. */
  lemma NotExtended<V>(t: Table<V>, homes: Homes, q: seq<Path>, par: seq<int>, tail: nat, i: nat)
    requires tail < |q| && Searched(t, homes, q, par, tail, i) && q[tail].end < |t| && i < |t[q[tail].end]|
    requires
      var next := Next(t, homes, q[tail].end, i);
      next == q[tail].end || (next < |t| && Full(t[next]) && (|q[tail].slots| >= MAX_DEPTH || |q| >= MAX_QUEUE))
    ensures Searched(t, homes, q, par, tail, i + 1)
  {
    hide Tree, Full, Reached;
    assert Explored(t, homes, q, tail, i);
  }

  /** All the slots of a path have been dealt with. */
  lemma NextPath<V>(t: Table<V>, homes: Homes, width: nat, q: seq<Path>, par: seq<int>, tail: nat)
    requires Shape(t, homes, width) && Searched(t, homes, q, par, tail, width)
    ensures Searched(t, homes, q, par, tail + 1, 0)
  {
    hide Tree, Explored;
  }

  lemma SlotsGrow(q: seq<Path>, width: nat, b1: nat, b2: nat, tail: nat, i: nat, next: nat)
    requires SlotsOk(q, width, b1, b2) && tail < |q| && i < width
    ensures SlotsOk(q + [Path(q[tail].start, next, q[tail].slots + [i])], width, b1, b2)
    ensures (q[tail].start == b1 || q[tail].start == b2) && forall s :: s in q[tail].slots ==> s < width
  {
  }

  /** Goes through the slots of the bucket where the `tail`-th path ends. */
  method Expand<V>(t: Table<V>, homes: Homes, width: nat, q0: seq<Path>, ghost par0: seq<int>, tail: nat, ghost b1: nat, ghost b2: nat)
    returns (r: Option<Route>, q: seq<Path>, ghost par: seq<int>)
    requires Shape(t, homes, width) && b1 < |t| && b2 < |t|
    requires tail < |q0| <= MAX_QUEUE && Searched(t, homes, q0, par0, tail, 0) && SlotsOk(q0, width, b1, b2)
    ensures r.Some? ==> RouteOk(t, homes, r.value) && (r.value.buckets[0] == b1 || r.value.buckets[0] == b2)
    ensures r.None? ==> q0 <= q && |q| <= MAX_QUEUE && Searched(t, homes, q, par, tail + 1, 0) && SlotsOk(q, width, b1, b2)
  {
    hide Searched, SlotsOk, RouteOk, Full;
    q, par := q0, par0;
    var path := q[tail];
    for i := 0 to width
      invariant q0 <= q && |q| <= MAX_QUEUE && q[tail] == path
      invariant Searched(t, homes, q, par, tail, i) && SlotsOk(q, width, b1, b2)
    {
      EndsInTable(t, homes, width, q, par, tail, i, i);
      var next := Next(t, homes, path.end, i);
      if next == path.end {
        NotExtended(t, homes, q, par, tail, i);
        continue;
      }
      SlotsGrow(q, width, b1, b2, tail, i, next);
      var j := FindEmptySlot(t[next]);
      if j.Some? {
        var route := MakeRoute(t, homes, width, q, par, tail, i, j.value);
        return Some(route), q, par;
      }
      if |path.slots| < MAX_DEPTH && |q| < MAX_QUEUE {
        Extended(t, homes, q, par, tail, i);
        q := q + [Path(path.start, next, path.slots + [i])];
        par := par + [tail as int];
      } else {
        NotExtended(t, homes, q, par, tail, i);
      }
    }
    NextPath(t, homes, width, q, par, tail);
    r := None;
  }
}
