/** The concurrent hash map: nodes under 32-bit hashes, all nodes with one hash on one chain. */
module Cmaps {
  import opened Capacity
  import opened Cuckoo
  import opened CuckooTable
  import opened Displacement
  import Readers
  import opened Sequences
  import opened Wrappers

  /** The slots of a bucket, as many as fit a cache line: 5 on a 64-bit machine and 7 on a 32-bit one. */
  type Width = k: nat | k == 5 || k == 7 witness 5

  type Node = nat

  /** The nodes with one hash, the last one inserted first. */
  type Chain = c: seq<Node> | c != [] witness [0]

  function Under(view: map<int, Chain>, h: int): seq<Node> {
    if h in view then view[h] else []
  }

  /** A node goes in front of those with its hash. */
  function Pushed(view: map<int, Chain>, node: Node, hash: nat): map<int, Chain> {
    view[hash as int := [node] + Under(view, hash)]
  }

  /** `view` has each node exactly once, under the hash that `stored` has for it. */
  ghost predicate Holds(view: map<int, Chain>, stored: map<Node, nat>) {
    && (forall h, x :: h in view && x in view[h] ==> x in stored && stored[x] == h)
    && (forall x :: x in stored ==> stored[x] in view && x in view[stored[x]])
    && (forall h :: h in view ==> NoRepeats(view[h]))
  }

  lemma HoldsInsert(view: map<int, Chain>, stored: map<Node, nat>, x: Node, h: nat)
    requires Holds(view, stored) && x !in stored
    ensures Holds(Pushed(view, x, h), stored[x := h])
  {
    var view' := Pushed(view, x, h);
    assert x !in Under(view, h);
    forall y | y in stored ensures stored[y] in view' && y in view'[stored[y]] {
      assert y in view[stored[y]];
    }
  }

  lemma FoundAll(view: map<int, Chain>, stored: map<Node, nat>, h: nat)
    requires Holds(view, stored)
    ensures h !in view <==> forall x :: x in stored ==> stored[x] != h
    ensures h in view ==> NoRepeats(view[h]) && forall x :: x in view[h] <==> x in stored && stored[x] == h
  {
    if h in view {
      var x := view[h][0];
      assert x in view[h] && x in stored && stored[x] == h;
    }
  }

  /** The chain with `old_` replaced, or taken out. */
  function Swap(c: seq<Node>, old_: Node, new_: Option<Node>): seq<Node> {
    if c == [] then []
    else if c[0] == old_ then (if new_.Some? then [new_.value] else []) + c[1..]
    else [c[0]] + Swap(c[1..], old_, new_)
  }

  lemma {:induction false} SwapMembers(c: seq<Node>, old_: Node, new_: Option<Node>)
    requires NoRepeats(c) && old_ in c && (new_.Some? ==> new_.value !in c)
    ensures
      var c' := Swap(c, old_, new_);
      && NoRepeats(c')
      && forall x :: x in c' <==> (x in c && x != old_) || new_ == Some(x)
    decreases |c|
  {
    assert c == [c[0]] + c[1..];
    if c[0] != old_ {
      SwapMembers(c[1..], old_, new_);
      assert c[0] !in c[1..];
      InFront(c[0], Swap(c[1..], old_, new_));
    } else if new_.Some? {
      InFront(new_.value, c[1..]);
    }
  }

  function PutChain(view: map<int, Chain>, h: int, c: seq<Node>): map<int, Chain> {
    if c == [] then view - {h} else view[h := c]
  }

  function PutNode(stored: map<Node, nat>, x: Option<Node>, h: nat): map<Node, nat> {
    if x.Some? then stored[x.value := h] else stored
  }

  lemma HoldsReplace(view: map<int, Chain>, stored: map<Node, nat>, old_: Node, new_: Option<Node>, h: nat)
    requires Holds(view, stored) && old_ in stored && stored[old_] == h && (new_.Some? ==> new_.value !in stored)
    ensures h in view && old_ in view[h]
    ensures Holds(PutChain(view, h, Swap(view[h], old_, new_)), PutNode(stored - {old_}, new_, h))
  {
    hide Swap;
    SwapMembers(view[h], old_, new_);
    HoldsOther(view, stored, Swap(view[h], old_, new_), old_, new_, h);
  }

  /** The chain of a hash gives way to one with the same nodes but for the replaced one. */
  lemma HoldsOther(view: map<int, Chain>, stored: map<Node, nat>, c: seq<Node>, old_: Node, new_: Option<Node>, h: nat)
    requires Holds(view, stored) && old_ in stored && stored[old_] == h && (new_.Some? ==> new_.value !in stored)
    requires NoRepeats(c) && forall x :: x in c <==> (x in view[h] && x != old_) || new_ == Some(x)
    ensures Holds(PutChain(view, h, c), PutNode(stored - {old_}, new_, h))
  {
    hide NoRepeats;
    var view' := PutChain(view, h, c);
    var stored' := PutNode(stored - {old_}, new_, h);
    forall x | x in stored' ensures stored'[x] in view' && x in view'[stored'[x]] {
      if x in stored { assert x in view[stored[x]]; }
    }
  }

  // ----- inserting into a table

  /** Puts the nodes in front of those that the bucket has under the hash, or in the slot that had
      the hash before. */
  method InsertDup(impl: Impl<Chain>, chain: Chain, hash: nat, b: nat) returns (ok: bool)
    requires impl.Valid() && impl.homes.Has(hash, b)
    requires
      var first := impl.homes.first(hash);
      b != first ==> Lacks(impl.buckets[first], hash, |impl.buckets[first]|)
    modifies impl
    ensures impl.Valid() && |impl.buckets| == |old(impl.buckets)|
    ensures ok ==> impl.Contents() == old(impl.Contents())[hash as int := chain + Under(old(impl.Contents()), hash)]
    ensures ok ==> impl.states == old(impl.states) + [impl.buckets]
    ensures !ok ==> impl.buckets == old(impl.buckets) && impl.at == old(impl.at) && impl.states == old(impl.states)
                    && Lacks(impl.buckets[b], hash, |impl.buckets[b]|)
  {
    hide Step, Stored;
    var i := impl.FindHash(b, hash);
    if i.None? { return false; }
    var l := Loc(b, i.value);
    var node := impl.buckets[b][i.value].value;
    if node.Some? {
      HeldHere(impl.buckets, impl.homes, impl.at, l);
      impl.Overwrite(l, hash, chain + node.value);
    } else {
      StaleMeansAbsent(impl.buckets, impl.homes, impl.at, l, hash);
      impl.Reuse(l, hash, chain);
      assert chain + [] == chain;
    }
    return true;
  }

  /** Adds a node, or a chain of them.  If that fails nothing has changed. */
  method TryInsert(impl: Impl<Chain>, chain: Chain, hash: nat) returns (ok: bool)
    requires impl.Valid()
    modifies impl
    ensures impl.Valid() && |impl.buckets| == |old(impl.buckets)|
    ensures impl.Contents() ==
      if ok then old(impl.Contents())[hash as int := chain + Under(old(impl.Contents()), hash)] else old(impl.Contents())
    ensures Quietly(old(impl.states), impl.states, impl.homes, old(impl.Contents()))
    ensures !ok ==> impl.buckets == old(impl.buckets) && impl.states == old(impl.states)
    ensures !ok ==> hash !in old(impl.Contents()) && NoRoom(impl.buckets, impl.homes, hash)
    ensures forall h: nat :: h in old(impl.Contents()) ==> Readers.NeverMissed(Readers.Since(impl, |old(impl.states)|, h))
  {
    hide Step, Stored, Shows, Readers.NeverMissed, NoRoom;
    ghost var was, view := impl.states, impl.Contents();
    StoredShows(impl.buckets, impl.homes, impl.at);
    ok := InsertDup(impl, chain, hash, impl.homes.first(hash));
    if !ok {
      ok := InsertDup(impl, chain, hash, impl.homes.second(hash));
      if !ok {
        NowhereMeansAbsent(impl.buckets, impl.homes, impl.at, hash);
        assert chain + [] == chain;
        ok := impl.PlaceNew(hash, chain);
      }
    }
    Readers.NothingMissed(impl, was, view);
  }

  lemma NowhereMeansAbsent<V>(t: Table<V>, homes: Homes, at: map<int, Loc>, hash: int)
    requires Stored(t, homes, at) && homes.first(hash) < |t| && homes.second(hash) < |t|
    requires Lacks(t[homes.first(hash)], hash, |t[homes.first(hash)]|)
    requires Lacks(t[homes.second(hash)], hash, |t[homes.second(hash)]|)
    ensures hash !in at
  {
    forall h | h in at ensures h != hash {
      assert HeldAt(t, homes, h, at[h]);
    }
  }

  // ----- replacing and removing

  lemma {:induction false} SwapAt(c: seq<Node>, i: nat, new_: Option<Node>)
    requires i < |c| && forall j :: 0 <= j < i ==> c[j] != c[i]
    ensures Swap(c, c[i], new_) == c[..i] + (if new_.Some? then [new_.value] else []) + c[i + 1..]
    decreases i
  {
    if i > 0 {
      SwapAt(c[1..], i - 1, new_);
      assert c[..i] == [c[0]] + c[1..][..i - 1];
    }
  }

  /** Goes along the chain to the node, which must be there. */
  method SwapNode(c: Chain, old_: Node, new_: Option<Node>) returns (r: seq<Node>)
    requires old_ in c
    ensures r == Swap(c, old_, new_)
  {
    var i := 0;
    while c[i] != old_
      invariant i < |c| && forall j :: 0 <= j < i ==> c[j] != old_
      decreases |c| - i
    {
      i := i + 1;
    }
    SwapAt(c, i, new_);
    r := c[..i] + (if new_.Some? then [new_.value] else []) + c[i + 1..];
  }

  /** Replaces a node, or takes it out, if the bucket holds its hash. */
  method ReplaceIn(impl: Impl<Chain>, old_: Node, new_: Option<Node>, hash: nat, b: nat) returns (ok: bool)
    requires impl.Valid() && b < |impl.buckets|
    requires hash in impl.Contents() && old_ in impl.Contents()[hash]
    modifies impl
    ensures impl.Valid() && |impl.buckets| == |old(impl.buckets)|
    ensures ok == (old(impl.at)[hash].bucket == b)
    ensures ok ==> impl.Contents() == PutChain(old(impl.Contents()), hash, Swap(old(impl.Contents())[hash], old_, new_))
    ensures ok ==> impl.states == old(impl.states) + [impl.buckets]
    ensures !ok ==> impl.at == old(impl.at) && impl.buckets == old(impl.buckets) && impl.states == old(impl.states)
  {
    hide Step, Shape;
    var slot := impl.FindSlot(b, hash);
    if slot.None? { return false; }
    assert HeldAt(impl.buckets, impl.homes, hash, impl.at[hash]);
    var c := impl.buckets[b][slot.value].value.value;
    var c' := SwapNode(c, old_, new_);
    if c' == [] {
      impl.Drop(Loc(b, slot.value), hash);
    } else {
      impl.Overwrite(Loc(b, slot.value), hash, c');
    }
    return true;
  }

  /** Replaces a node in whichever bucket holds its hash. */
  method ReplaceInTable(impl: Impl<Chain>, old_: Node, new_: Option<Node>, hash: nat)
    requires impl.Valid() && hash in impl.Contents() && old_ in impl.Contents()[hash]
    modifies impl
    ensures impl.Valid() && |impl.buckets| == |old(impl.buckets)|
    ensures impl.Contents() == PutChain(old(impl.Contents()), hash, Swap(old(impl.Contents())[hash], old_, new_))
    ensures impl.states == old(impl.states) + [impl.buckets]
    ensures forall h: nat :: h in old(impl.Contents()) && h in impl.Contents() ==>
      Readers.NeverMissed(Readers.Since(impl, |old(impl.states)|, h))
  {
    hide Stored, Step, PutChain, Swap, Shows, Readers.NeverMissed;
    ghost var was, view := impl.states, impl.Contents();
    StoredShows(impl.buckets, impl.homes, impl.at);
    EachInHomes(impl.buckets, impl.homes, impl.at);
    var ok := ReplaceIn(impl, old_, new_, hash, impl.homes.first(hash));
    if !ok {
      ok := ReplaceIn(impl, old_, new_, hash, impl.homes.second(hash));
    }
    assert ok;
    Readers.NothingMissed(impl, was, view);
  }

  lemma CountAfter(stored: map<Node, nat>, old_: Node, new_: Option<Node>, h: nat)
    requires old_ in stored && (new_.Some? ==> new_.value !in stored)
    ensures |PutNode(stored - {old_}, new_, h)| == if new_.Some? then |stored| else |stored| - 1
  {
    assert stored.Keys == (stored - {old_}).Keys + {old_};
    assert |stored| == |stored.Keys| && |stored - {old_}| == |(stored - {old_}).Keys|;
  }

  // ----- copying a table into another

  /** Inserts all that `from` has into the empty table `to`. */
  method TryRehash(from: Impl<Chain>, to: Impl<Chain>) returns (ok: bool)
    requires from.Valid() && to.Valid() && from != to && to.Contents() == map[]
    modifies to
    ensures to.Valid() && |to.buckets| == |old(to.buckets)|
    ensures ok ==> to.Contents() == from.Contents()
    ensures !ok ==> Cramped<Chain>(to.homes, to.width, |to.buckets|, from.Contents().Keys)
  {
    hide Stored, Step, CopiedTo, Shape, Shows, NoRoom, Cramped;
    CopyNone(from.Contents(), from.at);
    for b := 0 to |from.buckets|
      invariant to.Valid() && |to.buckets| == |old(to.buckets)| && from.Valid()
      invariant CopiedTo(from.Contents(), from.at, b, 0, to.Contents())
    {
      for i := 0 to |from.buckets[b]|
        invariant to.Valid() && |to.buckets| == |old(to.buckets)| && from.Valid()
        invariant CopiedTo(from.Contents(), from.at, b, i, to.Contents())
      {
        var x := from.buckets[b][i];
        CopyStep(from.buckets, from.homes, from.at, b, i, to.Contents());
        if x.value.Some? {
          HashKnown(from.buckets, from.homes, from.at, Loc(b, i));
          assert x.value.value + [] == x.value.value;
          CopiedPart(from.buckets, from.homes, from.at, b, i, to.Contents());
          ok := TryInsert(to, x.value.value, x.hash);
          if !ok {
            ImplCramped(to, from.Contents().Keys, x.hash);
            return;
          }
        }
      }
      CopyBucket(from.buckets, from.homes, from.at, b, to.Contents());
    }
    CopyAll(from.buckets, from.homes, from.at, to.Contents());
    return true;
  }

  class Cmap {
    /** Mixes a hash with a basis. */
    const rehash: (nat, nat) -> nat
    const k: Width
    var impl: Impl<Chain>
    var mask: nat
    var n: nat
    var maxN: nat
    var minN: nat
    ghost var stored: map<Node, nat>

    ghost predicate Valid()
      reads this, impl
    {
      && impl.Valid() && impl.width == k && |impl.buckets| == mask + 1
      && PowerOf2(mask + 1) && mask < MAX_BUCKETS
      && Holds(impl.Contents(), stored) && n == |stored|
      && Sized()
    }

    /** The nodes under each hash. */
    ghost function Nodes(): map<int, Chain>
      requires Valid()
      reads this, impl
    {
      impl.Contents()
    }

    /** The thresholds are those of the size, or those of the map that was never inserted into. */
    predicate Sized()
      reads this
    {
      && n <= maxN
      && ((maxN == MaxN(mask, k) && minN == MinN(mask, k)) || (maxN == 0 && minN == 0 && mask == 0))
    }

    constructor (rehash: (nat, nat) -> nat, k: Width)
      ensures Valid() && stored == map[] && fresh(impl) && this.k == k
    {
      this.rehash, this.k := rehash, k;
      impl := new Impl(HomesOf(rehash, 0, 1), k, 1);
      mask, n, maxN, minN := 0, 0, 0, 0;
      stored := map[];
    }

    method Count() returns (r: nat)
      requires Valid()
      ensures r == |stored|
    {
      r := n;
    }

    /** Gives the nodes with the hash, all of them and no others. */
    method Find(hash: nat) returns (r: Option<Chain>)
      requires Valid()
      ensures r == if hash in Nodes() then Some(Nodes()[hash]) else None
      ensures r.None? <==> forall x :: x in stored ==> stored[x] != hash
      ensures r.Some? ==> NoRepeats(r.value) && forall x :: x in r.value <==> x in stored && stored[x] == hash
    {
      hide Stored, Step, Shape;
      r := impl.Find(hash);
      FoundAll(impl.Contents(), stored, hash);
    }

    /** Moves everything to a new table; `random` are the bases that the random generator gives, and
        `rest` those that are left.  Fails only when they run out. */
    method Rehash(newMask: nat, random: seq<nat>) returns (ok: bool, rest: seq<nat>)
      requires Valid() && PowerOf2(newMask + 1) && newMask < MAX_BUCKETS && n < MaxN(newMask, k)
      modifies this
      ensures Valid() && stored == old(stored) && Nodes() == old(Nodes())
      ensures ok ==> fresh(impl) && mask == newMask && maxN == MaxN(newMask, k) && |rest| < |random|
      ensures !ok ==> impl == old(impl) && mask == old(mask) && maxN == old(maxN) && rest == []
      ensures TriedBases<Chain>(rehash, random, rest, impl.homes, k, newMask + 1, Nodes().Keys, ok)
    {
      hide Stored, Step, Shape, Holds, PowerOf2, MaxN, MinN, View, AllCramped, Cramped;
      rest := random;
      ghost var hashes := Nodes().Keys;
      NoneCramped<Chain>(rehash, random, k, newMask + 1, hashes);
      while rest != []
        invariant Valid() && stored == old(stored) && impl == old(impl) && mask == old(mask) && maxN == old(maxN) && n == old(n)
        invariant unchanged(old(impl)) && |rest| <= |random| && rest == random[|random| - |rest|..]
        invariant AllCramped<Chain>(rehash, random[..|random| - |rest|], k, newMask + 1, hashes)
        decreases |rest|
      {
        var new_ := new Impl(HomesOf(rehash, rest[0], newMask + 1), k, newMask + 1);
        ok := TryRehash(impl, new_);
        if ok {
          rest := rest[1..];
          impl, mask := new_, newMask;
          maxN, minN := MaxN(newMask, k), MinN(newMask, k);
          return;
        }
        CrampedNext<Chain>(rehash, random, |random| - |rest|, k, newMask + 1, hashes);
        rest := rest[1..];
      }
      ok := false;
    }

    /** Grows the map if it is full. */
    method MakeRoom(random: seq<nat>) returns (ok: bool, rest: seq<nat>)
      requires Valid() && (n == maxN ==> mask + 1 < MAX_BUCKETS)
      modifies this
      ensures Valid() && stored == old(stored) && Nodes() == old(Nodes())
      ensures ok ==> n < maxN
      ensures !ok ==> rest == []
      ensures impl == old(impl) || fresh(impl)
      ensures old(n < maxN) ==> ok && unchanged(this) && rest == random
      ensures ok ==> mask == Room(old(n < maxN), old(mask))
      ensures TriedBases<Chain>(rehash, random, rest, impl.homes, k, Room(old(n < maxN), old(mask)) + 1, Nodes().Keys, ok)
    {
      hide Stored, Step, Shape, Holds, PowerOf2, MaxN, MinN, TriedBases;
      if n < maxN {
        TriedNone<Chain>(rehash, random, impl.homes, k, mask + 1, Nodes().Keys, true);
        return true, random;
      }
      GrownFits(mask, k, n);
      ok, rest := Rehash(2 * mask + 1, random);
    }

    /** Inserts a node.  The nodes that were there keep their hashes, and on the chain of its hash the
        new node comes first.  Fails only if there is no room for it in the table as it is, and every table
        that a random basis gives is cramped; then nothing has been inserted. */
    method Insert(node: Node, hash: nat, random: seq<nat>) returns (ok: bool, count: nat, rest: seq<nat>)
      requires Valid() && node !in stored && (n == maxN ==> mask + 1 < MAX_BUCKETS)
      modifies this, impl
      ensures Valid() && (impl == old(impl) || fresh(impl))
      ensures stored == if ok then old(stored)[node := hash] else old(stored)
      ensures Nodes() == if ok then Pushed(old(Nodes()), node, hash) else old(Nodes())
      ensures ok ==> count == |stored|
      ensures !ok ==> rest == []
      ensures !ok && old(n < maxN) ==> hash !in old(Nodes()) && NoRoom(old(impl.buckets), old(impl).homes, hash)
      ensures !ok ==>
        AllCramped<Chain>(rehash, random, k, Room(old(n < maxN), old(mask)) + 1, old(Nodes()).Keys + {hash as int})
    {
      hide Stored, Trace, Shape, Holds, Quietly, PowerOf2, MaxN, MinN, View, TriedBases, NoRoom, AllCramped;
      ghost var hashes, size := Nodes().Keys + {hash as int}, Room(n < maxN, mask) + 1;
      ok, rest := MakeRoom(random);
      count := n;
      if !ok {
        TriedAll<Chain>(rehash, random, impl.homes, k, size, Nodes().Keys);
        MoreCramped<Chain>(rehash, random, k, size, Nodes().Keys, hashes);
        return;
      }
      ok, rest := KeepTrying(node, hash, random, rest, hashes);
      count := n;
    }

    /** Tries the table as it is, and then one basis after another, until there is room for the node. */
    method KeepTrying(node: Node, hash: nat, ghost random: seq<nat>, mid: seq<nat>, ghost hashes: set<int>)
      returns (ok: bool, rest: seq<nat>)
      requires Valid() && n < maxN && node !in stored && Nodes().Keys <= hashes && hash in hashes
      requires TriedBases<Chain>(rehash, random, mid, impl.homes, k, mask + 1, Nodes().Keys, true)
      modifies this, impl
      ensures Valid() && (impl == old(impl) || fresh(impl))
      ensures stored == if ok then old(stored)[node := hash] else old(stored)
      ensures Nodes() == if ok then Pushed(old(Nodes()), node, hash) else old(Nodes())
      ensures !ok ==> rest == [] && AllCramped<Chain>(rehash, random, k, old(mask) + 1, hashes)
      ensures !ok ==> hash !in old(Nodes()) && NoRoom(old(impl.buckets), old(impl.homes), hash)
    {
      hide Stored, Trace, Shape, Holds, Quietly, PowerOf2, MaxN, MinN, View, TriedBases, NoRoom, AllCramped;
      rest := mid;
      ok := TryHere(node, hash, random, rest, hashes, Nodes().Keys);
      ghost var full := !ok;
      while !ok
        invariant Valid() && (impl == old(impl) || fresh(impl)) && (!ok ==> n < maxN && full) && mask == old(mask)
        invariant stored == if ok then old(stored)[node := hash] else old(stored)
        invariant Nodes() == if ok then Pushed(old(Nodes()), node, hash) else old(Nodes())
        invariant !ok ==> TriedBases<Chain>(rehash, random, rest, impl.homes, k, mask + 1, hashes, false)
        decreases |rest|, !ok
      {
        ok, rest := Retry(node, hash, random, rest, hashes);
        if !ok && rest == [] {
          TriedAll<Chain>(rehash, random, impl.homes, k, mask + 1, hashes);
          return;
        }
      }
    }

    /** Moves everything to another table of the same size, if a basis is left, and tries again. */
    method Retry(node: Node, hash: nat, ghost random: seq<nat>, mid: seq<nat>, ghost hashes: set<int>)
      returns (ok: bool, rest: seq<nat>)
      requires Valid() && n < maxN && node !in stored && Nodes().Keys <= hashes && hash in hashes
      requires TriedBases<Chain>(rehash, random, mid, impl.homes, k, mask + 1, hashes, false)
      modifies this, impl
      ensures Valid() && (impl == old(impl) || fresh(impl)) && mask == old(mask)
      ensures stored == if ok then old(stored)[node := hash] else old(stored)
      ensures Nodes() == if ok then Pushed(old(Nodes()), node, hash) else old(Nodes())
      ensures |rest| <= |mid| && (!ok ==> n < maxN && (mid != [] ==> |rest| < |mid|))
      ensures !ok ==> TriedBases<Chain>(rehash, random, rest, impl.homes, k, mask + 1, hashes, false)
    {
      hide Stored, Trace, Shape, Holds, Quietly, PowerOf2, MaxN, MinN, View, TriedBases, NoRoom;
      ghost var was := impl.homes;
      ghost var fewer := Nodes().Keys;
      ok, rest := Rehash(mask, mid);
      TriedOn<Chain>(rehash, random, mid, rest, was, impl.homes, k, mask + 1, hashes, fewer, ok);
      if !ok { return; }
      ok := TryHere(node, hash, random, rest, hashes, hashes);
    }

    /** One attempt, after which the table counts as tried. */
    method TryHere(node: Node, hash: nat, ghost random: seq<nat>, ghost rest: seq<nat>, ghost hashes: set<int>,
                   ghost fewer: set<int>)
      returns (ok: bool)
      requires Valid() && n < maxN && node !in stored && Nodes().Keys <= hashes && hash in hashes && fewer <= hashes
      requires TriedBases<Chain>(rehash, random, rest, impl.homes, k, mask + 1, fewer, true)
      modifies this, impl
      ensures Valid() && impl == old(impl) && mask == old(mask)
      ensures stored == if ok then old(stored)[node := hash] else old(stored)
      ensures Nodes() == if ok then Pushed(old(Nodes()), node, hash) else old(Nodes())
      ensures !ok ==> n < maxN && hash !in old(Nodes()) && NoRoom(old(impl.buckets), old(impl.homes), hash)
      ensures !ok ==> TriedBases<Chain>(rehash, random, rest, impl.homes, k, mask + 1, hashes, false)
    {
      hide Stored, Trace, Shape, Holds, Quietly, PowerOf2, MaxN, MinN, View, TriedBases, NoRoom;
      ok := Attempt(node, hash);
      if !ok { TriedTable(impl, rehash, random, rest, hashes, fewer, hash); }
    }

    /** One attempt to insert a node into the table as it is. */
    method Attempt(node: Node, hash: nat) returns (ok: bool)
      requires Valid() && n < maxN && node !in stored
      modifies this, impl
      ensures Valid() && impl == old(impl) && mask == old(mask) && maxN == old(maxN) && minN == old(minN)
      ensures stored == if ok then old(stored)[node := hash] else old(stored)
      ensures Nodes() == if ok then Pushed(old(Nodes()), node, hash) else old(Nodes())
      ensures !ok ==> n == old(n) && impl.buckets == old(impl.buckets) && hash !in Nodes()
      ensures !ok ==> NoRoom(impl.buckets, impl.homes, hash)
    {
      hide Stored, Trace, Shape, Holds, Quietly, PowerOf2, MaxN, MinN, View, NoRoom;
      HoldsInsert(impl.Contents(), stored, node, hash);
      ok := TryInsert(impl, [node], hash);
      if ok {
        n := n + 1;
        stored := stored[node := hash];
      }
    }

    /** Replaces a node, or removes it if there is no replacement; the rest of its chain stays as it
        is.  After a removal the map may shrink. */
    method Replace(old_: Node, new_: Option<Node>, hash: nat, random: seq<nat>) returns (count: nat, rest: seq<nat>)
      requires Valid() && old_ in stored && stored[old_] == hash && (new_.Some? ==> new_.value !in stored)
      modifies this, impl
      ensures Valid() && (impl == old(impl) || fresh(impl))
      ensures stored == PutNode(old(stored) - {old_}, new_, hash)
      ensures Nodes() == PutChain(old(Nodes()), hash, Swap(old(Nodes())[hash], old_, new_))
      ensures count == |stored|
      ensures new_.None? && old(n) <= old(minN) && rest != [] ==> mask == old(mask) / 2
      ensures new_.Some? || old(n) > old(minN) ==> mask == old(mask) && impl == old(impl)
    {
      hide Stored, Trace, Shape, Holds, PowerOf2, MaxN, MinN, PutChain, Swap, PutNode, View, TriedBases;
      HoldsReplace(impl.Contents(), stored, old_, new_, hash);
      Exchange(old_, new_, hash);
      rest := random;
      if new_.None? && n < minN {
        ShrinkingLeavesRoom(mask, k, n);
        var ok;
        ok, rest := Rehash(mask / 2, random);
      }
      count := n;
    }

    method Exchange(old_: Node, new_: Option<Node>, hash: nat)
      requires Valid() && old_ in stored && stored[old_] == hash && (new_.Some? ==> new_.value !in stored)
      modifies this, impl
      ensures Valid() && impl == old(impl) && mask == old(mask) && minN == old(minN)
      ensures n == if new_.None? then old(n) - 1 else old(n)
      ensures stored == PutNode(old(stored) - {old_}, new_, hash)
      ensures Nodes() == PutChain(old(Nodes()), hash, Swap(old(Nodes())[hash], old_, new_))
    {
      hide Stored, Trace, Shape, Holds, PowerOf2, MaxN, MinN, PutChain, Swap, PutNode, View;
      HoldsReplace(impl.Contents(), stored, old_, new_, hash);
      CountAfter(stored, old_, new_, hash);
      ghost var view := PutChain(impl.Contents(), hash, Swap(impl.Contents()[hash], old_, new_));
      ReplaceInTable(impl, old_, new_, hash);
      assert impl.Contents() == view;
      stored := PutNode(stored - {old_}, new_, hash);
      n := if new_.None? then n - 1 else n;
      assert impl.Valid() && impl.Contents() == view;
    }
  }
}
