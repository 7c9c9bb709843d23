/** The counting hash map: how many times each 32-bit hash was counted. */
module Ccmaps {
  import opened Capacity
  import opened Cuckoo
  import opened CuckooTable
  import opened Numbers
  import opened Wrappers

  const CCMAP_K := 8

  type Count = n: nat | n > 0 witness 1

  function Times(view: map<int, Count>, h: int): nat {
    if h in view then view[h] else 0
  }

  /** `view` has the multiplicity of every hash. */
  ghost predicate Counts(view: map<int, Count>, hashes: multiset<nat>) {
    && (forall h: nat :: hashes[h] == Times(view, h))
    && (forall h :: h in view ==> h >= 0)
  }

  function PutCount(view: map<int, Count>, h: int, n: nat): map<int, Count> {
    if n == 0 then view - {h} else view[h := n]
  }

  lemma CountsUp(view: map<int, Count>, hashes: multiset<nat>, h: nat)
    requires Counts(view, hashes)
    ensures Counts(PutCount(view, h, Times(view, h) + 1), hashes + multiset{h})
    ensures |PutCount(view, h, Times(view, h) + 1)| == |view| + if Times(view, h) == 0 then 1 else 0
  {
    var view' := PutCount(view, h, Times(view, h) + 1);
    assert view'.Keys == view.Keys + {h as int};
    assert |view| == |view.Keys| && |view'| == |view'.Keys|;
  }

  lemma CountsDown(view: map<int, Count>, hashes: multiset<nat>, h: nat)
    requires Counts(view, hashes) && h in hashes
    ensures h in view && Counts(PutCount(view, h, Times(view, h) - 1), hashes - multiset{h})
    ensures |PutCount(view, h, Times(view, h) - 1)| == |view| - if Times(view, h) == 1 then 1 else 0
  {
    assert hashes[h] == Times(view, h);
    var view' := PutCount(view, h, Times(view, h) - 1);
    assert view.Keys == view'.Keys + {h as int};
    assert |view| == |view.Keys| && |view'| == |view'.Keys|;
  }

  // ----- one table

  /** Adds to the count that the bucket holds for the hash; gives 0 if it holds none. */
  method IncExisting(impl: Impl<Count>, hash: nat, inc: Count, b: nat) returns (count: nat)
    requires impl.Valid() && b < |impl.buckets|
    modifies impl
    ensures impl.Valid() && |impl.buckets| == |old(impl.buckets)|
    ensures count > 0 <==> hash in old(impl.at) && old(impl.at)[hash].bucket == b
    ensures count > 0 ==> hash in old(impl.Contents()) && count == old(impl.Contents())[hash] + inc
                          && impl.Contents() == old(impl.Contents())[hash as int := count]
    ensures count == 0 ==> impl.at == old(impl.at) && impl.buckets == old(impl.buckets)
  {
    hide Trace, Shape;
    var slot := impl.FindSlot(b, hash);
    if slot.None? { return 0; }
    assert HeldAt(impl.buckets, impl.homes, hash, impl.at[hash]);
    count := impl.buckets[b][slot.value].value.value + inc;
    impl.Overwrite(Loc(b, slot.value), hash, count);
  }

  /** Adds to the count of a hash, and gives the new count.  If there is no room for a new hash it gives
      0, and nothing has changed. */
  method TryInc(impl: Impl<Count>, hash: nat, inc: Count) returns (count: nat)
    requires impl.Valid()
    modifies impl
    ensures impl.Valid() && |impl.buckets| == |old(impl.buckets)|
    ensures count > 0 ==> count == Times(old(impl.Contents()), hash) + inc
    ensures impl.Contents() == if count > 0 then old(impl.Contents())[hash as int := count] else old(impl.Contents())
    ensures count == 0 ==>
      hash !in old(impl.Contents()) && impl.buckets == old(impl.buckets) && NoRoom(impl.buckets, impl.homes, hash)
  {
    hide Stored, Trace, View, NoRoom;
    EachInHomes(impl.buckets, impl.homes, impl.at);
    count := IncExisting(impl, hash, inc, impl.homes.first(hash));
    if count > 0 { return; }
    count := IncExisting(impl, hash, inc, impl.homes.second(hash));
    if count > 0 { return; }
    ViewKeys(impl.buckets, impl.homes, impl.at);
    var ok := impl.PlaceNew(hash, inc);
    count := if ok then inc else 0;
  }

  lemma ViewKeys<V>(t: Table<V>, homes: Homes, at: map<int, Loc>)
    requires Stored(t, homes, at)
    ensures View(t, homes, at).Keys == at.Keys
  {
  }

  /** Takes one off the count that the bucket holds for the hash; gives the count before, or 0. */
  method DecIn(impl: Impl<Count>, hash: nat, b: nat) returns (was: nat)
    requires impl.Valid() && b < |impl.buckets|
    modifies impl
    ensures impl.Valid() && |impl.buckets| == |old(impl.buckets)|
    ensures was > 0 <==> hash in old(impl.at) && old(impl.at)[hash].bucket == b
    ensures was > 0 ==> hash in old(impl.Contents()) && was == old(impl.Contents())[hash]
                        && impl.Contents() == PutCount(old(impl.Contents()), hash, was - 1)
    ensures was == 0 ==> impl.at == old(impl.at) && impl.buckets == old(impl.buckets)
  {
    hide Trace, Shape;
    var slot := impl.FindSlot(b, hash);
    if slot.None? { return 0; }
    assert HeldAt(impl.buckets, impl.homes, hash, impl.at[hash]);
    was := impl.buckets[b][slot.value].value.value;
    if was == 1 {
      impl.Drop(Loc(b, slot.value), hash);
    } else {
      impl.Overwrite(Loc(b, slot.value), hash, was - 1);
    }
  }

  /** Takes one off the count of a hash, which must be counted. */
  method DecInTable(impl: Impl<Count>, hash: nat) returns (was: nat)
    requires impl.Valid() && hash in impl.Contents()
    modifies impl
    ensures impl.Valid() && |impl.buckets| == |old(impl.buckets)|
    ensures was == old(impl.Contents())[hash] && impl.Contents() == PutCount(old(impl.Contents()), hash, was - 1)
  {
    hide Stored, Trace, PutCount;
    EachInHomes(impl.buckets, impl.homes, impl.at);
    was := DecIn(impl, hash, impl.homes.first(hash));
    if was == 0 {
      was := DecIn(impl, hash, impl.homes.second(hash));
    }
    assert was > 0;
  }

  /** Counts all that `from` has in the empty table `to`. */
  method TryRehash(from: Impl<Count>, to: Impl<Count>) returns (ok: bool)
    requires from.Valid() && to.Valid() && from != to && to.Contents() == map[]
    modifies to
    ensures to.Valid() && |to.buckets| == |old(to.buckets)|
    ensures ok ==> to.Contents() == from.Contents()
    ensures !ok ==> Cramped<Count>(to.homes, to.width, |to.buckets|, from.Contents().Keys)
  {
    hide Stored, Trace, CopiedTo, Shape, NoRoom, Cramped;
    CopyNone(from.Contents(), from.at);
    for b := 0 to |from.buckets|
      invariant to.Valid() && |to.buckets| == |old(to.buckets)| && from.Valid()
      invariant CopiedTo(from.Contents(), from.at, b, 0, to.Contents())
    {
      for i := 0 to |from.buckets[b]|
        invariant to.Valid() && |to.buckets| == |old(to.buckets)| && from.Valid()
        invariant CopiedTo(from.Contents(), from.at, b, i, to.Contents())
      {
        var x := from.buckets[b][i];
        CopyStep(from.buckets, from.homes, from.at, b, i, to.Contents());
        if x.value.Some? {
          HashKnown(from.buckets, from.homes, from.at, Loc(b, i));
          CopiedPart(from.buckets, from.homes, from.at, b, i, to.Contents());
          var count := TryInc(to, x.hash, x.value.value);
          if count == 0 {
            ImplCramped(to, from.Contents().Keys, x.hash);
            return false;
          }
        }
      }
      CopyBucket(from.buckets, from.homes, from.at, b, to.Contents());
    }
    CopyAll(from.buckets, from.homes, from.at, to.Contents());
    return true;
  }

  class Ccmap {
    /** Mixes a hash with a basis. */
    const rehash: (nat, nat) -> nat
    var impl: Impl<Count>
    var mask: nat
    var n: nat
    var nUnique: nat
    var maxN: nat
    var minN: nat
    ghost var hashes: multiset<nat>

    ghost predicate Valid()
      reads this, impl
    {
      && impl.Valid() && impl.width == CCMAP_K && |impl.buckets| == mask + 1
      && PowerOf2(mask + 1) && mask < MAX_BUCKETS
      && Counts(impl.Contents(), hashes)
      && n == |hashes| && nUnique == |impl.Contents()| <= maxN
      && maxN == MaxN(mask, CCMAP_K) && minN == MinN(mask, CCMAP_K)
    }

    constructor (rehash: (nat, nat) -> nat, basis: nat)
      ensures Valid() && hashes == multiset{} && fresh(impl)
    {
      this.rehash := rehash;
      impl := new Impl(HomesOf(rehash, basis, 1), CCMAP_K, 1);
      mask, n, nUnique := 0, 0, 0;
      maxN, minN := MaxN(0, CCMAP_K), MinN(0, CCMAP_K);
      hashes := multiset{};
    }

    /** Gives the multiplicity of the hash. */
    method Find(hash: nat) returns (count: nat)
      requires Valid()
      ensures count == hashes[hash]
    {
      hide Stored, Trace, Shape;
      var r := impl.Find(hash);
      count := if r.Some? then r.value else 0;
    }

    /** Moves everything to a new table; see `Cmap.Rehash`. */
    method Rehash(newMask: nat, random: seq<nat>) returns (ok: bool, rest: seq<nat>)
      requires Valid() && PowerOf2(newMask + 1) && newMask < MAX_BUCKETS && nUnique < MaxN(newMask, CCMAP_K)
      modifies this
      ensures Valid() && hashes == old(hashes) && n == old(n) && nUnique == old(nUnique)
      ensures impl.Contents() == old(impl.Contents())
      ensures ok ==> fresh(impl) && mask == newMask && |rest| < |random|
      ensures !ok ==> impl == old(impl) && mask == old(mask) && maxN == old(maxN) && rest == []
      ensures TriedBases<Count>(rehash, random, rest, impl.homes, CCMAP_K, newMask + 1, impl.Contents().Keys, ok)
    {
      hide Stored, Trace, Shape, Counts, PowerOf2, MaxN, MinN, View, AllCramped, Cramped;
      rest := random;
      ghost var keys := impl.Contents().Keys;
      NoneCramped<Count>(rehash, random, CCMAP_K, newMask + 1, keys);
      while rest != []
        invariant Valid() && hashes == old(hashes) && impl == old(impl) && mask == old(mask) && maxN == old(maxN)
        invariant n == old(n) && nUnique == old(nUnique)
        invariant unchanged(old(impl)) && |rest| <= |random| && rest == random[|random| - |rest|..]
        invariant AllCramped<Count>(rehash, random[..|random| - |rest|], CCMAP_K, newMask + 1, keys)
        decreases |rest|
      {
        var new_ := new Impl(HomesOf(rehash, rest[0], newMask + 1), CCMAP_K, newMask + 1);
        ok := TryRehash(impl, new_);
        if ok {
          rest := rest[1..];
          impl, mask := new_, newMask;
          maxN, minN := MaxN(newMask, CCMAP_K), MinN(newMask, CCMAP_K);
          return;
        }
        CrampedNext<Count>(rehash, random, |random| - |rest|, CCMAP_K, newMask + 1, keys);
        rest := rest[1..];
      }
      ok := false;
    }

    /** Grows the map if it is full. */
    method MakeRoom(random: seq<nat>) returns (ok: bool, rest: seq<nat>)
      requires Valid() && (nUnique == maxN ==> mask + 1 < MAX_BUCKETS)
      modifies this
      ensures Valid() && hashes == old(hashes) && (impl == old(impl) || fresh(impl))
      ensures impl.Contents() == old(impl.Contents())
      ensures ok ==> nUnique < maxN
      ensures !ok ==> rest == []
      ensures old(nUnique < maxN) ==> ok && unchanged(this) && rest == random
      ensures ok ==> mask == Room(old(nUnique < maxN), old(mask))
      ensures TriedBases<Count>(rehash, random, rest, impl.homes, CCMAP_K, Room(old(nUnique < maxN), old(mask)) + 1,
                                impl.Contents().Keys, ok)
    {
      hide Stored, Trace, Shape, Counts, PowerOf2, MaxN, MinN, TriedBases;
      if nUnique < maxN {
        TriedNone<Count>(rehash, random, impl.homes, CCMAP_K, mask + 1, impl.Contents().Keys, true);
        return true, random;
      }
      GrownFits(mask, CCMAP_K, nUnique);
      ok, rest := Rehash(2 * mask + 1, random);
    }

    /** One attempt to count a hash in the table as it is. */
    method Attempt(hash: nat) returns (count: nat)
      requires Valid() && nUnique < maxN
      modifies this, impl
      ensures Valid() && impl == old(impl) && mask == old(mask)
      ensures count > 0 ==> hashes == old(hashes) + multiset{hash} && count == hashes[hash]
      ensures count == 0 ==>
        && hashes == old(hashes) && nUnique == old(nUnique) && maxN == old(maxN)
        && impl.buckets == old(impl.buckets) && impl.Contents() == old(impl.Contents())
        && hash !in impl.Contents() && NoRoom(impl.buckets, impl.homes, hash)
    {
      hide Stored, Trace, Shape, PowerOf2, MaxN, MinN, View, NoRoom;
      CountsUp(impl.Contents(), hashes, hash);
      count := TryInc(impl, hash, 1);
      if count > 0 {
        n := n + 1;
        hashes := hashes + multiset{hash};
        if count == 1 { nUnique := nUnique + 1; }
      }
    }

    /** Moves everything to another table of the same size, if a basis is left, and tries again. */
    method Retry(hash: nat, ghost random: seq<nat>, mid: seq<nat>, ghost keys: set<int>) returns (count: nat, rest: seq<nat>)
      requires Valid() && nUnique < maxN && impl.Contents().Keys <= keys && hash in keys
      requires TriedBases<Count>(rehash, random, mid, impl.homes, CCMAP_K, mask + 1, keys, false)
      modifies this, impl
      ensures Valid() && (impl == old(impl) || fresh(impl)) && mask == old(mask) && |rest| <= |mid|
      ensures count > 0 ==> hashes == old(hashes) + multiset{hash} && count == hashes[hash]
      ensures count == 0 ==>
        && hashes == old(hashes) && nUnique < maxN && impl.Contents() == old(impl.Contents())
        && (mid != [] ==> |rest| < |mid|)
        && TriedBases<Count>(rehash, random, rest, impl.homes, CCMAP_K, mask + 1, keys, false)
    {
      hide Stored, Trace, Shape, Counts, PowerOf2, MaxN, MinN, View, TriedBases, NoRoom;
      ghost var was := impl.homes;
      ghost var fewer := impl.Contents().Keys;
      var ok;
      ok, rest := Rehash(mask, mid);
      TriedLess<Count>(rehash, mid, rest, impl.homes, CCMAP_K, mask + 1, fewer, ok);
      TriedOn<Count>(rehash, random, mid, rest, was, impl.homes, CCMAP_K, mask + 1, keys, fewer, ok);
      if !ok { return 0, rest; }
      count := Attempt(hash);
      if count == 0 { TriedTable(impl, rehash, random, rest, keys, keys, hash); }
    }

    /** Counts a hash once more, and gives its new multiplicity.  Fails, with 0, only if there is no room for it
        in the table as it is, and every table that a random basis gives is cramped. */
    method Inc(hash: nat, random: seq<nat>) returns (count: nat, rest: seq<nat>)
      requires Valid() && (nUnique == maxN ==> mask + 1 < MAX_BUCKETS) && |hashes| + 1 < TWO_32
      modifies this, impl
      ensures Valid() && (impl == old(impl) || fresh(impl))
      ensures count > 0 ==> hashes == old(hashes) + multiset{hash} && count == hashes[hash]
      ensures count == 0 ==> hashes == old(hashes) && rest == []
      ensures count == 0 && old(nUnique < maxN) ==>
        hash !in old(impl.Contents()) && NoRoom(old(impl.buckets), old(impl).homes, hash)
      ensures count == 0 ==>
        AllCramped<Count>(rehash, random, CCMAP_K, Room(old(nUnique < maxN), old(mask)) + 1,
                          old(impl.Contents()).Keys + {hash as int})
    {
      hide Stored, Trace, Shape, Counts, PowerOf2, MaxN, MinN, View, TriedBases, NoRoom, AllCramped;
      ghost var keys, size := impl.Contents().Keys + {hash as int}, Room(nUnique < maxN, mask) + 1;
      ghost var fewer := impl.Contents().Keys;
      var ok;
      ok, rest := MakeRoom(random);
      if !ok {
        TriedAll<Count>(rehash, random, impl.homes, CCMAP_K, size, fewer);
        MoreCramped<Count>(rehash, random, CCMAP_K, size, fewer, keys);
        return 0, rest;
      }
      count := Attempt(hash);
      if count == 0 { TriedTable(impl, rehash, random, rest, keys, fewer, hash); }
      while count == 0
        invariant Valid() && (impl == old(impl) || fresh(impl)) && mask + 1 == size
        invariant count > 0 ==> hashes == old(hashes) + multiset{hash} && count == hashes[hash]
        invariant count == 0 ==> hashes == old(hashes) && nUnique < maxN && impl.Contents().Keys <= keys
        invariant count == 0 ==> TriedBases<Count>(rehash, random, rest, impl.homes, CCMAP_K, mask + 1, keys, false)
        invariant count == 0 && old(nUnique < maxN) ==>
          hash !in old(impl.Contents()) && NoRoom(old(impl.buckets), old(impl).homes, hash)
        decreases |rest|, count == 0
      {
        count, rest := Retry(hash, random, rest, keys);
        if count == 0 && rest == [] {
          TriedAll<Count>(rehash, random, impl.homes, CCMAP_K, mask + 1, keys);
          return;
        }
      }
    }

    /** Takes one off the count of a hash that is counted, and gives what is left of it. */
    method Dec(hash: nat, random: seq<nat>) returns (count: nat, rest: seq<nat>)
      requires Valid() && hash in hashes
      modifies this, impl
      ensures Valid() && (impl == old(impl) || fresh(impl))
      ensures hashes == old(hashes) - multiset{hash} && count == hashes[hash]
      ensures
        var small := count == 0 && nUnique < old(minN);
        (small && rest != [] ==> mask == old(mask) / 2) && (!small ==> mask == old(mask) && impl == old(impl))
    {
      hide Stored, Trace, Shape, PowerOf2, MaxN, MinN, View, TriedBases;
      CountsDown(impl.Contents(), hashes, hash);
      count := DecInTable(impl, hash);
      count := count - 1;
      hashes, n := hashes - multiset{hash}, n - 1;
      rest := random;
      if count == 0 {
        nUnique := nUnique - 1;
        if nUnique < minN {
          ShrinkingLeavesRoom(mask, CCMAP_K, nUnique);
          var ok;
          ok, rest := Rehash(mask / 2, random);
        }
      }
    }
  }
}
