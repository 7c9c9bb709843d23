/** The table object behind both cuckoo hash maps.  All its writes go through two methods, and the
    ghost record of them is what concurrent readers are confronted with. */
module CuckooTable {
  import opened Cuckoo
  import opened Displacement
  import opened RouteSearch
  import opened Wrappers

  /** A guarded write changes a slot between two steps of its bucket's counter; a direct one stores
      only a value, and the counter stays. */
  datatype Write<V> = Guarded(place: Loc, slot: Slot<V>) | Direct(place: Loc, value: Option<V>)

  function Effect<V>(t: Table<V>, w: Write<V>): Table<V>
    requires In(t, w.place)
  {
    match w
    case Guarded(l, x) => Put(t, l, x)
    case Direct(l, v) => Put(t, l, Slot(At(t, l).hash, v))
  }

  /** An unused slot gets a value directly only when nothing is found under its hash. */
  ghost predicate Allowed<V>(t: Table<V>, homes: Homes, w: Write<V>)
    requires In(t, w.place)
  {
    w.Direct? && At(t, w.place).value.None? ==>
      var h := At(t, w.place).hash;
      homes.first(h) < |t| && homes.second(h) < |t| ==> Find(t, homes, h).None?
  }

  /** The states a table goes through, and the writes that lead from each to the next. */
  ghost predicate Trace<V>(states: seq<Table<V>>, writes: seq<Write<V>>, homes: Homes) {
    && |states| == |writes| + 1
    && forall i :: 0 <= i < |writes| ==> Step(states, writes, homes, i)
  }

  ghost predicate Step<V>(states: seq<Table<V>>, writes: seq<Write<V>>, homes: Homes, i: nat)
    requires |states| == |writes| + 1 && i < |writes|
  {
    && In(states[i], writes[i].place) && Allowed(states[i], homes, writes[i])
    && states[i + 1] == Effect(states[i], writes[i])
  }

  lemma TraceGrows<V>(states: seq<Table<V>>, writes: seq<Write<V>>, homes: Homes, w: Write<V>)
    requires Trace(states, writes, homes)
    requires In(states[|writes|], w.place) && Allowed(states[|writes|], homes, w)
    ensures Trace(states + [Effect(states[|writes|], w)], writes + [w], homes)
  {
    var states', writes' := states + [Effect(states[|writes|], w)], writes + [w];
    forall i | 0 <= i < |writes'| ensures Step(states', writes', homes, i) {
      if i < |writes| { assert Step(states, writes, homes, i); }
    }
  }

  /** From `was` to `now`, searches find what `view` has in every state but the last. */
  ghost predicate Quietly<V>(was: seq<Table<V>>, now: seq<Table<V>>, homes: Homes, view: map<int, V>) {
    was <= now && forall i :: |was| <= i < |now| - 1 ==> Shows(now[i], homes, view)
  }

  // ----- when there is no room

  /** Both buckets of the hash are full, and no move makes room in them. */
  ghost predicate NoRoom<V>(t: Table<V>, homes: Homes, hash: int) {
    NoWay(t, homes, homes.first(hash), homes.second(hash))
  }

  ghost predicate CrampedBy<V>(t: Table<V>, homes: Homes, width: nat, at: map<int, Loc>, hashes: set<int>, hash: int) {
    Shape(t, homes, width) && Stored(t, homes, at) && at.Keys <= hashes && hash in hashes && hash !in at && NoRoom(t, homes, hash)
  }

  /** Some of the hashes can be in a table of `n` buckets in such a way that there is no room for another. */
  ghost predicate Cramped<V(!new)>(homes: Homes, width: nat, n: nat, hashes: set<int>) {
    exists t: Table<V>, at, hash :: |t| == n && CrampedBy(t, homes, width, at, hashes, hash)
  }

  /** All the tables of `n` buckets that the bases give are cramped. */
  ghost predicate AllCramped<V(!new)>(rehash: (nat, nat) -> nat, bases: seq<nat>, width: nat, n: nat, hashes: set<int>) {
    n > 0 && forall i :: 0 <= i < |bases| ==> Cramped<V>(HomesOf(rehash, bases[i], n), width, n, hashes)
  }

  lemma MoreCramped<V(!new)>(rehash: (nat, nat) -> nat, bases: seq<nat>, width: nat, n: nat, hashes: set<int>, more: set<int>)
    requires AllCramped<V>(rehash, bases, width, n, hashes) && hashes <= more
    ensures AllCramped<V>(rehash, bases, width, n, more)
  {
    forall i | 0 <= i < |bases| ensures Cramped<V>(HomesOf(rehash, bases[i], n), width, n, more) {
      var homes := HomesOf(rehash, bases[i], n);
      assert Cramped<V>(homes, width, n, hashes);
      var t: Table<V>, at, hash :| |t| == n && CrampedBy(t, homes, width, at, hashes, hash);
      assert CrampedBy(t, homes, width, at, more, hash);
    }
  }

  lemma CrampedAppend<V(!new)>(rehash: (nat, nat) -> nat, a: seq<nat>, b: seq<nat>, width: nat, n: nat, hashes: set<int>)
    requires AllCramped<V>(rehash, a, width, n, hashes) && AllCramped<V>(rehash, b, width, n, hashes)
    ensures AllCramped<V>(rehash, a + b, width, n, hashes)
  {
    hide Cramped;
    forall i | 0 <= i < |a + b| ensures Cramped<V>(HomesOf(rehash, (a + b)[i], n), width, n, hashes) {
      if i < |a| {
        assert (a + b)[i] == a[i];
      } else {
        assert (a + b)[i] == b[i - |a|];
      }
    }
  }

  lemma NoneCramped<V(!new)>(rehash: (nat, nat) -> nat, bases: seq<nat>, width: nat, n: nat, hashes: set<int>)
    requires n > 0
    ensures AllCramped<V>(rehash, bases[..0], width, n, hashes)
  {
  }

  lemma CrampedNext<V(!new)>(rehash: (nat, nat) -> nat, bases: seq<nat>, i: nat, width: nat, n: nat, hashes: set<int>)
    requires n > 0 && i < |bases| && AllCramped<V>(rehash, bases[..i], width, n, hashes)
    requires Cramped<V>(HomesOf(rehash, bases[i], n), width, n, hashes)
    ensures AllCramped<V>(rehash, bases[..i + 1], width, n, hashes)
  {
    hide Cramped;
    assert bases[..i + 1] == bases[..i] + [bases[i]];
    CrampedAppend<V>(rehash, bases[..i], [bases[i]], width, n, hashes);
  }

  /** The bases of `random` up to `rest` have been tried: all of them give cramped tables, but for the last one if
      `ok`, which is the one in use. */
  ghost predicate TriedBases<V(!new)>(rehash: (nat, nat) -> nat, random: seq<nat>, rest: seq<nat>, homes: Homes, width: nat,
                                      n: nat, hashes: set<int>, ok: bool) {
    && n > 0 && |rest| <= |random| && rest == random[|random| - |rest|..]
    && var used := |random| - |rest|;
       if ok && used > 0
       then homes == HomesOf(rehash, random[used - 1], n) && AllCramped<V>(rehash, random[..used - 1], width, n, hashes)
       else AllCramped<V>(rehash, random[..used], width, n, hashes)
  }

  lemma TriedNone<V(!new)>(rehash: (nat, nat) -> nat, random: seq<nat>, homes: Homes, width: nat, n: nat, hashes: set<int>, ok: bool)
    requires n > 0
    ensures TriedBases<V>(rehash, random, random, homes, width, n, hashes, ok)
  {
    assert random[0..] == random && random[..0] == [];
  }

  /** The mask of the table that an insertion goes into: twice the size if the map is full. */
  function Room(fits: bool, mask: nat): nat {
    if fits then mask else 2 * mask + 1
  }

  lemma TriedLess<V(!new)>(rehash: (nat, nat) -> nat, random: seq<nat>, rest: seq<nat>, homes: Homes, width: nat, n: nat,
                           hashes: set<int>, ok: bool)
    requires TriedBases<V>(rehash, random, rest, homes, width, n, hashes, ok)
    ensures |rest| <= |random|
  {
  }

  lemma TriedAll<V(!new)>(rehash: (nat, nat) -> nat, random: seq<nat>, homes: Homes, width: nat, n: nat, hashes: set<int>)
    requires TriedBases<V>(rehash, random, [], homes, width, n, hashes, false)
    ensures AllCramped<V>(rehash, random, width, n, hashes)
  {
    assert random[..|random|] == random;
  }

  lemma TriedOn<V(!new)>(rehash: (nat, nat) -> nat, random: seq<nat>, mid: seq<nat>, rest: seq<nat>, was: Homes, homes: Homes,
                         width: nat, n: nat, hashes: set<int>, fewer: set<int>, ok: bool)
    requires TriedBases<V>(rehash, random, mid, was, width, n, hashes, false) && fewer <= hashes
    requires TriedBases<V>(rehash, mid, rest, homes, width, n, fewer, ok) && (ok ==> |rest| < |mid|)
    ensures TriedBases<V>(rehash, random, rest, homes, width, n, hashes, ok)
  {
    hide AllCramped, HomesOf;
    var i, used := |random| - |mid|, |mid| - |rest|;
    var last := if ok then used - 1 else used;
    MoreCramped<V>(rehash, mid[..last], width, n, fewer, hashes);
    CrampedAppend<V>(rehash, random[..i], mid[..last], width, n, hashes);
    assert random[..i + last] == random[..i] + mid[..last];
    assert random[i + used..] == mid[used..];
    if ok { assert random[i + used - 1] == mid[used - 1]; }
  }

  /** The table in use has no room for the hash either. */
  lemma TriedTable<V(!new)>(impl: Impl<V>, rehash: (nat, nat) -> nat, random: seq<nat>, rest: seq<nat>, hashes: set<int>,
                            fewer: set<int>, hash: nat)
    requires impl.Valid() && TriedBases<V>(rehash, random, rest, impl.homes, impl.width, |impl.buckets|, fewer, true)
    requires impl.Contents().Keys <= hashes && fewer <= hashes && hash in hashes && hash !in impl.Contents()
    requires NoRoom(impl.buckets, impl.homes, hash)
    ensures TriedBases<V>(rehash, random, rest, impl.homes, impl.width, |impl.buckets|, hashes, false)
  {
    hide AllCramped, HomesOf, NoRoom, Cramped, Trace, Shape, Stored, View;
    var used, n := |random| - |rest|, |impl.buckets|;
    if used == 0 {
      NoneCramped<V>(rehash, random, impl.width, n, hashes);
    } else {
      MoreCramped<V>(rehash, random[..used - 1], impl.width, n, fewer, hashes);
      ImplCramped(impl, hashes, hash);
      CrampedNext<V>(rehash, random, used - 1, impl.width, n, hashes);
    }
  }

  /** A table with no room for a hash shows that it is cramped. */
  lemma ImplCramped<V(!new)>(impl: Impl<V>, hashes: set<int>, hash: nat)
    requires impl.Valid() && impl.Contents().Keys <= hashes && hash in hashes && hash !in impl.Contents()
    requires NoRoom(impl.buckets, impl.homes, hash)
    ensures Cramped<V>(impl.homes, impl.width, |impl.buckets|, hashes)
  {
    hide Stored, Shape, AllFull, Trace;
    assert impl.at.Keys == impl.Contents().Keys;
    assert CrampedBy(impl.buckets, impl.homes, impl.width, impl.at, hashes, hash);
  }

  class Impl<V> {
    const width: nat
    const homes: Homes
    var buckets: Table<V>
    ghost var at: map<int, Loc>
    ghost var states: seq<Table<V>>
    ghost var writes: seq<Write<V>>

    ghost predicate Recorded()
      reads this
    {
      Trace(states, writes, homes) && states[|writes|] == buckets
    }

    ghost predicate Valid()
      reads this
    {
      && Shape(buckets, homes, width)
      && Stored(buckets, homes, at) && (forall h :: h in at ==> h >= 0)
      && Recorded()
    }

    /** What is stored under each hash. */
    ghost function Contents(): map<int, V>
      requires Valid()
      reads this
    {
      View(buckets, homes, at)
    }

    /** An empty table: slots that were never used have the hash 0. */
    constructor (homes: Homes, width: nat, n: nat)
      requires forall h :: homes.first(h) < n && homes.second(h) < n
      ensures Valid() && Contents() == map[] && fresh(this)
      ensures this.homes == homes && this.width == width && |buckets| == n
    {
      this.homes, this.width := homes, width;
      buckets := seq(n, _ => seq(width, _ => Slot(0, None)));
      at := map[];
      states := [seq(n, _ => seq(width, _ => Slot(0, None)))];
      writes := [];
    }

    /** A guarded write. */
    method SetBucket(l: Loc, x: Slot<V>)
      requires In(buckets, l) && Recorded()
      modifies `buckets, `states, `writes
      ensures buckets == Put(old(buckets), l, x) && states == old(states) + [buckets] && Recorded()
    {
      TraceGrows(states, writes, homes, Guarded(l, x));
      buckets := buckets[l.bucket := buckets[l.bucket][l.slot := x]];
      states, writes := states + [buckets], writes + [Guarded(l, x)];
    }

    /** A direct write. */
    method StoreNode(l: Loc, v: Option<V>)
      requires In(buckets, l) && Recorded() && Allowed(buckets, homes, Direct(l, v))
      modifies `buckets, `states, `writes
      ensures buckets == Put(old(buckets), l, Slot(At(old(buckets), l).hash, v))
      ensures states == old(states) + [buckets] && Recorded()
    {
      TraceGrows(states, writes, homes, Direct(l, v));
      buckets := buckets[l.bucket := buckets[l.bucket][l.slot := Slot(buckets[l.bucket][l.slot].hash, v)]];
      states, writes := states + [buckets], writes + [Direct(l, v)];
    }

    // ----- searching

    method FindInBucket(b: nat, hash: nat) returns (r: Option<V>)
      requires b < |buckets|
      ensures r == FindIn(buckets[b], hash)
    {
      var bucket := buckets[b];
      for i := 0 to |bucket|
        invariant Lacks(bucket, hash, i)
      {
        FindInFirst(bucket, hash, i);
        if bucket[i].hash == hash { return bucket[i].value; }
      }
      FindInFirst(bucket, hash, |bucket|);
      return None;
    }

    /** Gives what is stored under the hash, and nothing if nothing is. */
    method Find(hash: nat) returns (r: Option<V>)
      requires Valid()
      ensures r == if hash in Contents() then Some(Contents()[hash]) else None
    {
      FindExact(buckets, homes, at, hash);
      r := FindInBucket(homes.first(hash), hash);
      if r.None? {
        r := FindInBucket(homes.second(hash), hash);
      }
    }

    /** The first slot with the hash, in use or not. */
    method FindHash(b: nat, hash: nat) returns (r: Option<nat>)
      requires b < |buckets|
      ensures r.None? ==> Lacks(buckets[b], hash, |buckets[b]|)
      ensures r.Some? ==> In(buckets, Loc(b, r.value)) && Lacks(buckets[b], hash, r.value)
                          && At(buckets, Loc(b, r.value)).hash == hash
    {
      for i := 0 to |buckets[b]|
        invariant Lacks(buckets[b], hash, i)
      {
        if buckets[b][i].hash == hash { return Some(i); }
      }
      return None;
    }

    /** The slot of the bucket that holds the hash, if one does. */
    method FindSlot(b: nat, hash: nat) returns (r: Option<nat>)
      requires Valid() && b < |buckets|
      ensures r.Some? ==> hash in at && at[hash] == Loc(b, r.value)
      ensures r.None? ==> hash in at ==> at[hash].bucket != b
    {
      for i := 0 to |buckets[b]|
        invariant hash in at && at[hash].bucket == b ==> i <= at[hash].slot
      {
        if buckets[b][i].hash == hash && buckets[b][i].value.Some? {
          assert At(buckets, Loc(b, i)).value.Some?;
          return Some(i);
        }
        assert hash in at ==> HeldAt(buckets, homes, hash, at[hash]);
      }
      assert hash in at ==> HeldAt(buckets, homes, hash, at[hash]);
      return None;
    }

    // ----- writing

    /** Between two moves along `r`, which started from `t0`. */
    ghost predicate Between(t0: Table<V>, at0: map<int, Loc>, r: Route, k: nat, since: seq<Table<V>>)
      requires RouteOk(t0, homes, r) && Stored(t0, homes, at0) && k < |r.slots|
      reads this
    {
      && Recorded() && Moving(t0, buckets, homes, at0, at, r, k)
      && (k < |r.slots| - 1 ==> CopyInHole(buckets, homes, at, r.Place(k)))
      && (k == |r.slots| - 1 ==> states == since)
      && Quietly(since, states, homes, View(t0, homes, at0))
    }

    method MoveOne(ghost t0: Table<V>, ghost at0: map<int, Loc>, r: Route, k: nat, ghost since: seq<Table<V>>)
      requires RouteOk(t0, homes, r) && Stored(t0, homes, at0)
      requires 0 < k < |r.slots| && Between(t0, at0, r, k, since)
      modifies this
      ensures Between(t0, at0, r, k - 1, since)
    {
      hide Hop, InUseBefore, Stored, CopyInHole, Step, Shows, Full;
      ghost var was := states;
      if k < |r.slots| - 1 { CopyShows(buckets, homes, at, r.Place(k)); }
      MoveStep(t0, buckets, homes, at0, at, r, k);
      at := at[At(buckets, r.Place(k - 1)).hash := r.Place(k)];
      SetBucket(r.Place(k), At(buckets, r.Place(k - 1)));
      QuietlyGrows(since, was, buckets, homes, View(t0, homes, at0));
    }

    /** Moves the entries of a route backward along it, and puts the new entry at its start.  A
        search at any time in between finds what it would have found before. */
    method Displace(r: Route, hash: nat, v: V)
      requires Valid() && RouteOk(buckets, homes, r) && hash !in at
      requires homes.Has(hash, r.buckets[0])
      requires homes.first(hash) != r.buckets[0] ==> Full(buckets[homes.first(hash)])
      modifies this
      ensures Valid() && Contents() == old(Contents())[hash as int := v]
      ensures |buckets| == |old(buckets)|
      ensures Quietly(old(states), states, homes, old(Contents()))
    {
      hide Hop, InUseBefore, Stored, CopyInHole, Step, Shows, Full;
      ghost var t0, at0, since := buckets, at, states;
      var k := |r.slots| - 1;
      RouteStarts(t0, homes, at0, r);
      while k > 0
        invariant 0 <= k < |r.slots| && Between(t0, at0, r, k, since)
      {
        MoveOne(t0, at0, r, k, since);
        k := k - 1;
      }
      CopyShows(buckets, homes, at, r.Place(0));
      StartFree(t0, buckets, homes, at0, at, r, hash, v);
      ghost var was := states;
      at := at[hash as int := r.Place(0)];
      SetBucket(r.Place(0), Slot(hash, Some(v)));
      QuietlyGrows(since, was, buckets, homes, View(t0, homes, at0));
    }

    /** Stores another value under a hash. */
    method Overwrite(l: Loc, hash: nat, v: V)
      requires Valid() && hash in at && at[hash] == l
      modifies `buckets, `states, `writes
      ensures Valid() && Contents() == old(Contents())[hash as int := v] && |buckets| == |old(buckets)|
      ensures states == old(states) + [buckets]
    {
      hide Step;
      assert HeldAt(buckets, homes, hash, l);
      Replaced(buckets, homes, at, hash, v);
      StoreNode(l, Some(v));
    }

    /** Takes a hash away; its slot keeps the hash. */
    method Drop(l: Loc, hash: nat)
      requires Valid() && hash in at && at[hash] == l
      modifies this
      ensures Valid() && Contents() == old(Contents()) - {hash as int} && |buckets| == |old(buckets)|
      ensures states == old(states) + [buckets]
    {
      hide Step;
      assert HeldAt(buckets, homes, hash, l);
      Cleared(buckets, homes, at, hash);
      StoreNode(l, None);
      at := at - {hash as int};
    }

    /** Stores a value in an unused slot that has the hash from an earlier use. */
    method Reuse(l: Loc, hash: nat, v: V)
      requires Valid() && hash !in at && In(buckets, l) && At(buckets, l) == Slot(hash, None)
      requires homes.Has(hash, l.bucket) && Lacks(buckets[l.bucket], hash, l.slot)
      requires l.bucket != homes.first(hash) ==> Lacks(buckets[homes.first(hash)], hash, |buckets[homes.first(hash)]|)
      modifies this
      ensures Valid() && Contents() == old(Contents())[hash as int := v] && |buckets| == |old(buckets)|
      ensures states == old(states) + [buckets]
    {
      hide Step;
      FindExact(buckets, homes, at, hash);
      Added(buckets, homes, at, l, hash, v);
      StoreNode(l, Some(v));
      at := at[hash as int := l];
    }

    /** Puts a hash that is not stored into an unused slot of one of its buckets. */
    method PutFresh(l: Loc, hash: nat, v: V)
      requires Valid() && hash !in at && In(buckets, l) && At(buckets, l).value.None?
      requires homes.Has(hash, l.bucket) && InUseBefore(buckets, l)
      requires l.bucket != homes.first(hash) ==> Full(buckets[homes.first(hash)])
      modifies this
      ensures Valid() && Contents() == old(Contents())[hash as int := v] && |buckets| == |old(buckets)|
      ensures Quietly(old(states), states, homes, old(Contents()))
    {
      hide Stored, Full, InUseBefore, Step;
      FreshPlace(buckets, homes, at, l, hash, v);
      at := at[hash as int := l];
      SetBucket(l, Slot(hash, Some(v)));
    }

    /** Stores a hash that is not stored yet: in its first bucket, or its second, or after making room
        in one of them.  If that fails nothing has changed. */
    method PlaceNew(hash: nat, v: V) returns (ok: bool)
      requires Valid() && hash !in at
      modifies this
      ensures Valid() && |buckets| == |old(buckets)|
      ensures Contents() == if ok then old(Contents())[hash as int := v] else old(Contents())
      ensures Quietly(old(states), states, homes, old(Contents()))
      ensures !ok ==> buckets == old(buckets) && states == old(states)
      ensures !ok ==> NoRoom(buckets, homes, hash)
    {
      hide Stored, Step, RouteOk, Shows, AllFull;
      var b1, b2 := homes.first(hash), homes.second(hash);
      var j := FindEmptySlot(buckets[b1]);
      if j.Some? {
        PutFresh(Loc(b1, j.value), hash, v);
        return true;
      }
      j := FindEmptySlot(buckets[b2]);
      if j.Some? {
        PutFresh(Loc(b2, j.value), hash, v);
        return true;
      }
      var route := FindRoute(buckets, homes, width, b1, b2);
      if route.Some? {
        Displace(route.value, hash, v);
        return true;
      }
      return false;
    }
  }

  /** A hash that is not stored goes into the first slot that is not in use. */
  lemma FreshPlace<V>(t: Table<V>, homes: Homes, at: map<int, Loc>, l: Loc, hash: nat, v: V)
    requires Stored(t, homes, at) && hash !in at && In(t, l) && At(t, l).value.None?
    requires homes.first(hash) < |t| && homes.Has(hash, l.bucket) && InUseBefore(t, l)
    requires l.bucket != homes.first(hash) ==> Full(t[homes.first(hash)])
    ensures
      var t', at' := Put(t, l, Slot(hash, Some(v))), at[hash as int := l];
      Stored(t', homes, at') && View(t', homes, at') == View(t, homes, at)[hash as int := v]
  {
    LacksAbsent(t, homes, at, l.bucket, hash, l.slot);
    if l.bucket != homes.first(hash) {
      LacksAbsent(t, homes, at, homes.first(hash), hash, |t[homes.first(hash)]|);
    }
    Added(t, homes, at, l, hash, v);
  }

  lemma QuietlyGrows<V>(since: seq<Table<V>>, was: seq<Table<V>>, t: Table<V>, homes: Homes, view: map<int, V>)
    requires Quietly(since, was, homes, view) && was != []
    requires |since| < |was| ==> Shows(was[|was| - 1], homes, view)
    ensures Quietly(since, was + [t], homes, view)
  {
  }

  lemma RouteStarts<V>(t: Table<V>, homes: Homes, at: map<int, Loc>, r: Route)
    requires Stored(t, homes, at) && (forall h :: h in at ==> h >= 0) && RouteOk(t, homes, r)
    ensures Moving(t, t, homes, at, at, r, |r.slots| - 1)
  {
    Punched(t, homes, at, r.Place(|r.slots| - 1));
  }

  /** If the first slot with a hash is unused, in the first bucket, or in the second one when the first
      does not have the hash at all, then the hash is not stored. */
  lemma StaleMeansAbsent<V>(t: Table<V>, homes: Homes, at: map<int, Loc>, l: Loc, hash: int)
    requires Stored(t, homes, at) && In(t, l) && At(t, l) == Slot(hash, None) && homes.first(hash) < |t|
    requires homes.Has(hash, l.bucket) && Lacks(t[l.bucket], hash, l.slot)
    requires l.bucket != homes.first(hash) ==> Lacks(t[homes.first(hash)], hash, |t[homes.first(hash)]|)
    ensures hash !in at
  {
    forall h | h in at ensures h != hash {
      assert HeldAt(t, homes, h, at[h]);
    }
  }

  /** The two halves of a 32-bit hash change places. */
  function OtherHash(h: nat): nat {
    h % 0x1_0000 * 0x1_0000 + h / 0x1_0000 % 0x1_0000
  }

  lemma OtherHashSymmetric(h: nat)
    requires h < 0x1_0000_0000
    ensures OtherHash(h) < 0x1_0000_0000 && OtherHash(OtherHash(h)) == h
  {
  }

  /** The buckets of a hash in a table of `n` buckets, `n` a power of two; `rehash` mixes the hash with
      the table's random basis. */
  function HomesOf(rehash: (nat, nat) -> nat, basis: nat, n: nat): (r: Homes)
    requires n > 0
    ensures forall h :: r.first(h) < n && r.second(h) < n
  {
    Homes((h: int) => if h < 0 then 0 else rehash(basis, h) % n,
          (h: int) => if h < 0 then 0 else OtherHash(rehash(basis, h)) % n)
  }

  lemma PutTwice<V>(t: Table<V>, l: Loc, x: Slot<V>, y: Slot<V>)
    requires In(t, l)
    ensures Put(Put(t, l, x), l, y) == Put(t, l, y)
  {
    assert t[l.bucket][l.slot := x][l.slot := y] == t[l.bucket][l.slot := y];
  }

  /** The last step of a displacement: the start of the route takes the new entry. */
  lemma StartFree<V>(t0: Table<V>, t: Table<V>, homes: Homes, at0: map<int, Loc>, at: map<int, Loc>, r: Route, hash: nat, v: V)
    requires Stored(t0, homes, at0) && RouteOk(t0, homes, r) && Moving(t0, t, homes, at0, at, r, 0)
    requires hash !in at && homes.Has(hash, r.buckets[0]) && homes.first(hash) < |t0|
    requires homes.first(hash) != r.buckets[0] ==> Full(t0[homes.first(hash)])
    ensures
      var t' := Put(t, r.Place(0), Slot(hash, Some(v)));
      var at' := at[hash as int := r.Place(0)];
      Stored(t', homes, at') && View(t', homes, at') == View(t0, homes, at0)[hash as int := v]
  {
    var hole := r.Place(0);
    var p: Table<V> := Punch(t, hole);
    UsedBefore(t0, t, homes, r, 0);
    LacksAbsent(p, homes, at, hole.bucket, hash, hole.slot);
    var b := homes.first(hash);
    if b != hole.bucket {
      forall s | 0 <= s < |t0[b]| ensures p[b][s].value.Some? {
        assert At(t0, Loc(b, s)).value.Some?;
        assert At(t, Loc(b, s)).value.Some?;
      }
      LacksAbsent(p, homes, at, b, hash, |p[b]|);
    }
    Added(p, homes, at, hole, hash, v);
    PutTwice(t, hole, Slot(-1, None), Slot(hash, Some(v)));
  }

  lemma HeldHere<V>(t: Table<V>, homes: Homes, at: map<int, Loc>, l: Loc)
    requires Stored(t, homes, at) && In(t, l) && At(t, l).value.Some?
    ensures At(t, l).hash in at && at[At(t, l).hash] == l
    ensures View(t, homes, at)[At(t, l).hash] == At(t, l).value.value
  {
  }

  // ----- copying a table into another

  predicate Before(l: Loc, b: nat, i: nat) {
    l.bucket < b || (l.bucket == b && l.slot < i)
  }

  /** `to` has what `view` has in the slots before slot `i` of bucket `b`. */
  ghost predicate CopiedTo<V>(view: map<int, V>, at: map<int, Loc>, b: nat, i: nat, to: map<int, V>)
    requires at.Keys == view.Keys
  {
    && (forall h :: h in to <==> h in at && Before(at[h], b, i))
    && (forall h :: h in to ==> to[h] == view[h])
  }

  /** What has been copied is part of what there is, and so is the next slot. */
  lemma CopiedPart<V>(t: Table<V>, homes: Homes, at: map<int, Loc>, b: nat, i: nat, to: map<int, V>)
    requires Stored(t, homes, at) && In(t, Loc(b, i)) && CopiedTo(View(t, homes, at), at, b, i, to) && t[b][i].value.Some?
    ensures to.Keys <= View(t, homes, at).Keys && t[b][i].hash in View(t, homes, at)
  {
    var l := Loc(b, i);
    assert At(t, l) == t[b][i];
    forall h | h in to ensures h in View(t, homes, at) {
      assert h in at;
    }
  }

  /** Passing a slot that is in use adds its entry, and passing another one adds nothing. */
  lemma CopyStep<V>(t: Table<V>, homes: Homes, at: map<int, Loc>, b: nat, i: nat, to: map<int, V>)
    requires Stored(t, homes, at) && In(t, Loc(b, i)) && CopiedTo(View(t, homes, at), at, b, i, to)
    ensures
      var x := t[b][i];
      && (x.value.Some? ==> x.hash !in to && CopiedTo(View(t, homes, at), at, b, i + 1, to[x.hash := x.value.value]))
      && (x.value.None? ==> CopiedTo(View(t, homes, at), at, b, i + 1, to))
  {
    var l := Loc(b, i);
    assert At(t, l) == t[b][i];
    forall h | h in at && at[h] == l ensures t[b][i].hash == h && t[b][i].value.Some? {
      assert HeldAt(t, homes, h, l);
    }
  }

  lemma CopyBucket<V>(t: Table<V>, homes: Homes, at: map<int, Loc>, b: nat, to: map<int, V>)
    requires Stored(t, homes, at) && b < |t| && CopiedTo(View(t, homes, at), at, b, |t[b]|, to)
    ensures CopiedTo(View(t, homes, at), at, b + 1, 0, to)
  {
    forall h | h in at ensures Before(at[h], b, |t[b]|) <==> Before(at[h], b + 1, 0) {
      assert HeldAt(t, homes, h, at[h]);
    }
  }

  lemma CopyAll<V>(t: Table<V>, homes: Homes, at: map<int, Loc>, to: map<int, V>)
    requires Stored(t, homes, at) && CopiedTo(View(t, homes, at), at, |t|, 0, to)
    ensures to == View(t, homes, at)
  {
    forall h | h in at ensures h in to {
      assert HeldAt(t, homes, h, at[h]);
    }
    forall h | h in to ensures h in at {}
    assert to.Keys == View(t, homes, at).Keys;
    assert forall h :: h in to ==> to[h] == View(t, homes, at)[h];
  }

  lemma CopyNone<V>(view: map<int, V>, at: map<int, Loc>)
    requires at.Keys == view.Keys
    ensures CopiedTo(view, at, 0, 0, map[])
  {
  }

  lemma HashKnown<V>(t: Table<V>, homes: Homes, at: map<int, Loc>, l: Loc)
    requires Stored(t, homes, at) && (forall h :: h in at ==> h >= 0) && In(t, l) && At(t, l).value.Some?
    ensures At(t, l).hash >= 0
  {
  }

  lemma EachInHomes<V>(t: Table<V>, homes: Homes, at: map<int, Loc>)
    requires Stored(t, homes, at)
    ensures forall h :: h in at ==> homes.Has(h, at[h].bucket)
  {
    forall h | h in at ensures homes.Has(h, at[h].bucket) {
      assert HeldAt(t, homes, h, at[h]);
    }
  }
}
