/** Making room in a full bucket: a breadth-first search for a route of full buckets that ends at one
    with an empty slot, and moving the entries backward along it. */
module Displacement {
  import opened Cuckoo
  import opened Wrappers

  // ----- moving one entry

  /** The table with the slot `hole` left out of account. */
  function Punch<V>(t: Table<V>, hole: Loc): Table<V>
    requires In(t, hole)
  {
    Put(t, hole, Slot(-1, None))
  }

  lemma Punched<V>(t: Table<V>, homes: Homes, at: map<int, Loc>, hole: Loc)
    requires Stored(t, homes, at) && -1 !in at && In(t, hole) && At(t, hole).value.None?
    ensures Stored(Punch(t, hole), homes, at) && View(Punch(t, hole), homes, at) == View(t, homes, at)
  {
    var t': Table<V> := Punch(t, hole);
    forall g | g in at ensures HeldAt(t', homes, g, at[g]) {
      assert HeldAt(t, homes, g, at[g]);
    }
  }

  /** Every slot of the hole's bucket that comes before it is in use. */
  predicate InUseBefore<V>(t: Table<V>, hole: Loc)
    requires In(t, hole)
  {
    forall s :: 0 <= s < hole.slot ==> t[hole.bucket][s].value.Some?
  }

  /** An entry of a full bucket moves to the hole in its other bucket, and leaves a hole. */
  lemma Moved<V>(t: Table<V>, homes: Homes, at: map<int, Loc>, src: Loc, hole: Loc)
    requires In(t, hole) && In(t, src) && src.bucket != hole.bucket
    requires -1 !in at && Stored(Punch(t, hole), homes, at)
    requires At(t, src).value.Some? && hole.bucket == homes.Other(At(t, src).hash, src.bucket)
    requires Full(t[src.bucket]) && InUseBefore(t, hole)
    ensures
      var h := At(t, src).hash;
      var t' := Punch(Put(t, hole, At(t, src)), src);
      && h in at && at[h] == src
      && Stored(t', homes, at[h := hole])
      && View(t', homes, at[h := hole]) == View(Punch(t, hole), homes, at)
  {
    var h := At(t, src).hash;
    var p: Table<V> := Punch(t, hole);
    var t': Table<V> := Punch(Put(t, hole, At(t, src)), src);
    var at' := at[h := hole];
    assert At(p, src) == At(t, src);
    assert HeldAt(p, homes, h, src);
    forall m | In(t, m) && m != src && m != hole ensures At(t', m) == At(t, m) == At(p, m) {}
    OnlyThere(t, homes, at, src, hole);
    forall g | g in at' ensures HeldAt(t', homes, g, at'[g]) {
      if g != h { StillHeld(t, homes, at, src, hole, g); }
    }
    forall l | In(t', l) && At(t', l).value.Some? ensures At(t', l).hash in at' && at'[At(t', l).hash] == l {
      if l != hole { assert At(p, l).value.Some?; }
    }
  }

  /** The hash of an entry that moves is in no other slot of its bucket, nor before the hole. */
  lemma OnlyThere<V>(t: Table<V>, homes: Homes, at: map<int, Loc>, src: Loc, hole: Loc)
    requires In(t, hole) && In(t, src) && src.bucket != hole.bucket
    requires Stored(Punch(t, hole), homes, at)
    requires Full(t[src.bucket]) && InUseBefore(t, hole)
    ensures
      var t' := Punch(Put(t, hole, At(t, src)), src);
      && (At(t, src).hash != -1 ==> Lacks(t'[src.bucket], At(t, src).hash, |t'[src.bucket]|))
      && Lacks(t'[hole.bucket], At(t, src).hash, hole.slot)
  {
    var h := At(t, src).hash;
    var p: Table<V> := Punch(t, hole);
    var t': Table<V> := Punch(Put(t, hole, At(t, src)), src);
    assert At(p, src) == At(t, src);
    forall s | 0 <= s < |t[src.bucket]| && s != src.slot ensures t'[src.bucket][s].hash != h {
      assert At(p, Loc(src.bucket, s)) == At(t, Loc(src.bucket, s)) == At(t', Loc(src.bucket, s));
    }
    forall s | 0 <= s < hole.slot ensures t'[hole.bucket][s].hash != h {
      assert At(p, Loc(hole.bucket, s)) == At(t, Loc(hole.bucket, s)) == At(t', Loc(hole.bucket, s));
    }
  }

  lemma StillHeld<V>(t: Table<V>, homes: Homes, at: map<int, Loc>, src: Loc, hole: Loc, g: int)
    requires In(t, hole) && In(t, src) && src.bucket != hole.bucket
    requires -1 !in at && Stored(Punch(t, hole), homes, at)
    requires g in at && At(t, src).hash != g && at[g] != src
    ensures HeldAt(Punch(Put(t, hole, At(t, src)), src), homes, g, at[g])
  {
    var p: Table<V> := Punch(t, hole);
    var t': Table<V> := Punch(Put(t, hole, At(t, src)), src);
    assert HeldAt(p, homes, g, at[g]);
    forall b, n | 0 <= b < |t| && 0 <= n <= |t[b]| && Lacks(p[b], g, n) ensures Lacks(t'[b], g, n) {
      forall s | 0 <= s < n ensures t'[b][s].hash != g {
        assert At(p, Loc(b, s)).hash != g;
        assert At(t', Loc(b, s)).hash != g;
      }
    }
  }

  // ----- the route

  /** Bucket `b` has the entry in its slot `i` move to this one. */
  function Next<V>(t: Table<V>, homes: Homes, b: nat, i: nat): nat
    requires b < |t| && i < |t[b]|
  {
    homes.Other(t[b][i].hash, b)
  }

  /** Buckets and the slots that lead from each to the next; the last slot is empty. */
  datatype Route = Route(buckets: seq<nat>, slots: seq<nat>) {
    predicate Fits<V>(t: Table<V>) {
      && |buckets| == |slots| >= 2
      && forall k :: 0 <= k < |slots| ==> buckets[k] < |t| && slots[k] < |t[buckets[k]]|
    }

    function Place(k: nat): Loc
      requires |buckets| == |slots| && k < |slots|
    {
      Loc(buckets[k], slots[k])
    }
  }

  /** No bucket comes twice, every bucket but the last is full, each slot leads to the next bucket,
      and the last slot is the first one of its bucket that is empty. */
  ghost predicate RouteOk<V>(t: Table<V>, homes: Homes, r: Route) {
    && r.Fits(t)
    && (forall j, k :: 0 <= j < k < |r.buckets| ==> r.buckets[j] != r.buckets[k])
    && (forall k :: 0 <= k < |r.slots| - 1 ==> Hop(t, homes, r, k))
    && At(t, r.Place(|r.slots| - 1)).value.None? && InUseBefore(t, r.Place(|r.slots| - 1))
  }

  predicate Hop<V>(t: Table<V>, homes: Homes, r: Route, k: nat)
    requires r.Fits(t) && k < |r.slots| - 1
  {
    Full(t[r.buckets[k]]) && r.buckets[k + 1] == Next(t, homes, r.buckets[k], r.slots[k])
  }

  /** Searches find in `t` exactly what `view` has. */
  ghost predicate Shows<V>(t: Table<V>, homes: Homes, view: map<int, V>) {
    forall h: nat :: homes.first(h) < |t| && homes.second(h) < |t| ==>
      Find(t, homes, h) == if h in view then Some(view[h]) else None
  }

  lemma StoredShows<V>(t: Table<V>, homes: Homes, at: map<int, Loc>)
    requires Stored(t, homes, at)
    ensures Shows(t, homes, View(t, homes, at))
  {
    forall h: nat | homes.first(h) < |t| && homes.second(h) < |t|
      ensures Find(t, homes, h) == if h in at then Some(View(t, homes, at)[h]) else None
    {
      FindExact(t, homes, at, h);
    }
  }

  lemma {:induction false} FindInSame<V>(b: Bucket<V>, b': Bucket<V>, h: int)
    requires |b| == |b'| && forall s :: 0 <= s < |b| ==> b[s] == b'[s] || (b[s].hash != h && b'[s].hash != h)
    ensures FindIn(b, h) == FindIn(b', h)
    decreases |b|
  {
    if b != [] {
      FindInSame(b[1..], b'[1..], h);
    }
  }

  /** The hole has a copy of an entry of a full bucket that moved to its other bucket. */
  ghost predicate CopyInHole<V>(t: Table<V>, homes: Homes, at: map<int, Loc>, hole: Loc) {
    && In(t, hole) && Full(t[hole.bucket])
    && var h := At(t, hole).hash;
       && h in at && h != -1 && In(t, at[h]) && At(t, at[h]) == At(t, hole)
       && hole.bucket != at[h].bucket && homes.Has(h, hole.bucket) && at[h].bucket == homes.Other(h, hole.bucket)
  }

  /** While an entry is in two places, searches find what they found before it moved. */
  lemma CopyShows<V>(t: Table<V>, homes: Homes, at: map<int, Loc>, hole: Loc)
    requires In(t, hole) && Stored(Punch(t, hole), homes, at) && CopyInHole(t, homes, at, hole)
    ensures Shows(t, homes, View(Punch(t, hole), homes, at))
  {
    hide FindIn;
    var p := Punch(t, hole);
    StoredShows(p, homes, at);
    forall h: nat | homes.first(h) < |t| && homes.second(h) < |t| ensures Find(t, homes, h) == Find(p, homes, h) {
      if h == At(t, hole).hash {
        CopyFound(t, homes, at, hole);
        FindExact(p, homes, at, h);
      } else {
        FindInSame(t[homes.first(h)], p[homes.first(h)], h);
        FindInSame(t[homes.second(h)], p[homes.second(h)], h);
      }
    }
  }

  lemma CopyFound<V>(t: Table<V>, homes: Homes, at: map<int, Loc>, hole: Loc)
    requires In(t, hole) && Stored(Punch(t, hole), homes, at) && CopyInHole(t, homes, at, hole)
    requires homes.first(At(t, hole).hash) < |t| && homes.second(At(t, hole).hash) < |t|
    ensures Find(t, homes, At(t, hole).hash) == At(t, hole).value
  {
    hide FindIn;
    var p: Table<V> := Punch(t, hole);
    var h := At(t, hole).hash;
    assert HeldAt(p, homes, h, at[h]);
    forall s | 0 <= s < hole.slot ensures t[hole.bucket][s].hash != h {
      assert At(p, Loc(hole.bucket, s)) == At(t, Loc(hole.bucket, s));
    }
    FindInFirst(t[hole.bucket], h, hole.slot);
    assert p[at[h].bucket] == t[at[h].bucket];
    FindInFirst(t[at[h].bucket], h, at[h].slot);
  }

  /** The state between two moves: the entries from the `k`-th place on have moved, and the `k`-th
      place is free, though it still has a copy of the entry that moved out of it. */
  ghost predicate Moving<V>(t0: Table<V>, t: Table<V>, homes: Homes, at0: map<int, Loc>, at: map<int, Loc>, r: Route, k: nat)
    requires RouteOk(t0, homes, r) && k < |r.slots| && Stored(t0, homes, at0)
  {
    && |t| == |t0| && (forall b :: 0 <= b < |t0| ==> |t[b]| == |t0[b]|)
    && (forall i :: 0 <= i < k ==> t[r.buckets[i]] == t0[r.buckets[i]])
    && (forall l :: In(t0, l) && At(t0, l).value.Some? ==> At(t, l).value.Some?)
    && -1 !in at && at.Keys == at0.Keys
    && Stored(Punch(t, r.Place(k)), homes, at)
    && View(Punch(t, r.Place(k)), homes, at) == View(t0, homes, at0)
  }

  lemma MoveStep<V>(t0: Table<V>, t: Table<V>, homes: Homes, at0: map<int, Loc>, at: map<int, Loc>, r: Route, k: nat)
    requires RouteOk(t0, homes, r) && 0 < k < |r.slots| && Stored(t0, homes, at0)
    requires Moving(t0, t, homes, at0, at, r, k)
    ensures
      var src := r.Place(k - 1);
      var h := At(t, src).hash;
      && Moving(t0, Put(t, r.Place(k), At(t, src)), homes, at0, at[h := r.Place(k)], r, k - 1)
      && CopyInHole(Put(t, r.Place(k), At(t, src)), homes, at[h := r.Place(k)], src)
  {
    hide Stored, View, HeldAt, Full, InUseBefore;
    var src, hole := r.Place(k - 1), r.Place(k);
    SourceInUse(t0, t, homes, r, k);
    UsedBefore(t0, t, homes, r, k);
    Moved(t, homes, at, src, hole);
    InHomes(Punch(t, hole), homes, at, At(t, src).hash);
    StaysBehind(t0, t, homes, r, k, At(t, src));
  }

  /** What is stored is in one of its two buckets. */
  lemma InHomes<V>(t: Table<V>, homes: Homes, at: map<int, Loc>, h: int)
    requires Stored(t, homes, at) && h in at
    ensures In(t, at[h]) && homes.Has(h, at[h].bucket)
  {
    assert HeldAt(t, homes, h, at[h]);
  }

  /** The entry that moves next is where it was at the start, in a full bucket. */
  lemma SourceInUse<V>(t0: Table<V>, t: Table<V>, homes: Homes, r: Route, k: nat)
    requires RouteOk(t0, homes, r) && 0 < k < |r.slots|
    requires |t| == |t0| && (forall b :: 0 <= b < |t0| ==> |t[b]| == |t0[b]|)
    requires forall i :: 0 <= i < k ==> t[r.buckets[i]] == t0[r.buckets[i]]
    ensures
      var src, hole := r.Place(k - 1), r.Place(k);
      && In(t, src) && In(t, hole) && src.bucket != hole.bucket && At(t, src).value.Some? && Full(t[src.bucket])
      && hole.bucket == homes.Other(At(t, src).hash, src.bucket)
  {
    var src, hole := r.Place(k - 1), r.Place(k);
    assert Hop(t0, homes, r, k - 1);
    assert t[r.buckets[k - 1]] == t0[r.buckets[k - 1]];
    assert In(t0, src) && In(t0, hole);
    assert At(t, src) == t[src.bucket][src.slot];
  }

  /** Filling the `k`-th place leaves the buckets before it alone, and takes nothing out. */
  lemma StaysBehind<V>(t0: Table<V>, t: Table<V>, homes: Homes, r: Route, k: nat, x: Slot<V>)
    requires RouteOk(t0, homes, r) && 0 < k < |r.slots| && In(t, r.Place(k)) && x.value.Some?
    requires |t| == |t0| && (forall b :: 0 <= b < |t0| ==> |t[b]| == |t0[b]|)
    requires forall i :: 0 <= i < k ==> t[r.buckets[i]] == t0[r.buckets[i]]
    requires forall l :: In(t0, l) && At(t0, l).value.Some? ==> At(t, l).value.Some?
    ensures
      var t' := Put(t, r.Place(k), x);
      && |t'| == |t0| && (forall b :: 0 <= b < |t0| ==> |t'[b]| == |t0[b]|)
      && (forall i :: 0 <= i < k ==> t'[r.buckets[i]] == t0[r.buckets[i]])
      && (forall l :: In(t0, l) && At(t0, l).value.Some? ==> At(t', l).value.Some?)
  {
    var t' := Put(t, r.Place(k), x);
    forall i | 0 <= i < k ensures t'[r.buckets[i]] == t0[r.buckets[i]] {
      assert r.buckets[i] != r.buckets[k];
      assert t[r.buckets[i]] == t0[r.buckets[i]];
    }
  }

  lemma UsedBefore<V>(t0: Table<V>, t: Table<V>, homes: Homes, r: Route, k: nat)
    requires RouteOk(t0, homes, r) && k < |r.slots|
    requires |t| == |t0| && (forall b :: 0 <= b < |t0| ==> |t[b]| == |t0[b]|)
    requires forall l :: In(t0, l) && At(t0, l).value.Some? ==> At(t, l).value.Some?
    ensures InUseBefore(t, r.Place(k))
  {
    var hole := r.Place(k);
    assert In(t0, hole);
    forall s | 0 <= s < hole.slot ensures t[hole.bucket][s].value.Some? {
      if k < |r.slots| - 1 {
        assert Hop(t0, homes, r, k);
      } else {
        assert InUseBefore(t0, hole);
      }
      assert t0[hole.bucket][s].value.Some?;
      assert At(t0, Loc(hole.bucket, s)).value.Some?;
    }
  }
}
