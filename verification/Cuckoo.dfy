/** Two-choice hash tables: every hash has two buckets it can be in, slots that are emptied keep
    their hash, and slots that were never used have the hash 0. */
module Cuckoo {
  import opened Wrappers

  datatype Slot<V> = Slot(hash: int, value: Option<V>)

  type Bucket<V> = seq<Slot<V>>
  type Table<V> = seq<seq<Slot<V>>>

  datatype Loc = Loc(bucket: nat, slot: nat)

  /** The two buckets of a hash. */
  datatype Homes = Homes(first: int -> nat, second: int -> nat) {
    predicate Has(h: int, b: nat) {
      b == first(h) || b == second(h)
    }

    /** The bucket other than `b` that `h` can be in; it may be `b` again. */
    function Other(h: int, b: nat): nat {
      if first(h) == b then second(h) else first(h)
    }
  }

  ghost predicate Shape<V>(t: Table<V>, homes: Homes, width: nat) {
    && (forall b :: 0 <= b < |t| ==> |t[b]| == width)
    && (forall h :: homes.first(h) < |t| && homes.second(h) < |t|)
  }

  predicate In<V>(t: Table<V>, l: Loc) {
    l.bucket < |t| && l.slot < |t[l.bucket]|
  }

  function At<V>(t: Table<V>, l: Loc): Slot<V>
    requires In(t, l)
  {
    t[l.bucket][l.slot]
  }

  function Put<V>(t: Table<V>, l: Loc, x: Slot<V>): (r: Table<V>)
    requires In(t, l)
    ensures |r| == |t| && forall b :: 0 <= b < |t| ==> |r[b]| == |t[b]|
    ensures forall m :: In(t, m) ==> At(r, m) == if m == l then x else At(t, m)
  {
    t[l.bucket := t[l.bucket][l.slot := x]]
  }

  // ----- what a table stores

  predicate Lacks<V>(b: Bucket<V>, h: int, n: nat)
    requires n <= |b|
  {
    forall s :: 0 <= s < n ==> b[s].hash != h
  }

  predicate Full<V>(b: Bucket<V>) {
    forall s :: 0 <= s < |b| ==> b[s].value.Some?
  }

  /** The slot that holds `h`: the first slot with that hash in its bucket, and a slot of the second
      bucket only if no slot of the first one has the hash at all. */
  ghost predicate HeldAt<V>(t: Table<V>, homes: Homes, h: int, l: Loc) {
    && In(t, l) && At(t, l).hash == h && At(t, l).value.Some?
    && homes.Has(h, l.bucket)
    && Lacks(t[l.bucket], h, l.slot)
    && (l.bucket != homes.first(h) && homes.first(h) < |t| ==> Lacks(t[homes.first(h)], h, |t[homes.first(h)]|))
  }

  /** `at` says where each stored hash is held, and nothing else is held. */
  ghost predicate Stored<V>(t: Table<V>, homes: Homes, at: map<int, Loc>) {
    && (forall h :: h in at ==> HeldAt(t, homes, h, at[h]))
    && (forall l :: In(t, l) && At(t, l).value.Some? ==> At(t, l).hash in at && at[At(t, l).hash] == l)
  }

  ghost function View<V>(t: Table<V>, homes: Homes, at: map<int, Loc>): map<int, V>
    requires Stored(t, homes, at)
  {
    map h | h in at :: At(t, at[h]).value.value
  }

  // ----- finding

  function FindIn<V>(b: Bucket<V>, h: int): Option<V> {
    if b == [] then None
    else if b[0].hash == h then b[0].value
    else FindIn(b[1..], h)
  }

  function Find<V>(t: Table<V>, homes: Homes, h: int): Option<V>
    requires homes.first(h) < |t| && homes.second(h) < |t|
  {
    var found := FindIn(t[homes.first(h)], h);
    if found.Some? then found else FindIn(t[homes.second(h)], h)
  }

  /** The search stops at the first slot with the hash, whether or not it is in use. */
  lemma {:induction false} FindInFirst<V>(b: Bucket<V>, h: int, s: nat)
    requires s <= |b| && Lacks(b, h, s)
    ensures FindIn(b, h) == if s < |b| && b[s].hash == h then b[s].value else FindIn(b[s..], h)
    decreases s
  {
    if s == 0 {
      assert b[0..] == b;
    } else {
      FindInFirst(b[1..], h, s - 1);
      assert b[1..][s - 1..] == b[s..];
    }
  }

  lemma FindInNone<V>(b: Bucket<V>, h: int)
    requires forall s :: 0 <= s < |b| && b[s].hash == h ==> b[s].value.None?
    ensures FindIn(b, h).None?
    decreases b
  {
  }

  /** A search gives what is stored under the hash, and nothing if nothing is. */
  lemma FindExact<V>(t: Table<V>, homes: Homes, at: map<int, Loc>, h: int)
    requires Stored(t, homes, at) && homes.first(h) < |t| && homes.second(h) < |t|
    ensures Find(t, homes, h) == if h in at then Some(View(t, homes, at)[h]) else None
  {
    hide FindIn;
    if h in at {
      var l := at[h];
      assert HeldAt(t, homes, h, l);
      FindInFirst(t[l.bucket], h, l.slot);
      if l.bucket != homes.first(h) {
        FindInNone(t[homes.first(h)], h);
      }
    } else {
      assert forall l :: In(t, l) && At(t, l).hash == h ==> At(t, l).value.None?;
      NotHeld(t, h, homes.first(h));
      NotHeld(t, h, homes.second(h));
    }
  }

  lemma NotHeld<V>(t: Table<V>, h: int, b: nat)
    requires b < |t| && forall l :: In(t, l) && At(t, l).hash == h ==> At(t, l).value.None?
    ensures FindIn(t[b], h).None?
  {
    forall s | 0 <= s < |t[b]| && t[b][s].hash == h ensures t[b][s].value.None? {
      assert At(t, Loc(b, s)).hash == h;
    }
    FindInNone(t[b], h);
  }

  // ----- changing one slot

  lemma Replaced<V>(t: Table<V>, homes: Homes, at: map<int, Loc>, h: int, v: V)
    requires Stored(t, homes, at) && h in at
    ensures
      var t' := Put(t, at[h], Slot(h, Some(v)));
      Stored(t', homes, at) && View(t', homes, at) == View(t, homes, at)[h := v]
  {
    var t' := Put(t, at[h], Slot(h, Some(v)));
    assert HeldAt(t, homes, h, at[h]);
    forall g | g in at ensures HeldAt(t', homes, g, at[g]) {
      assert HeldAt(t, homes, g, at[g]);
    }
  }

  lemma Cleared<V>(t: Table<V>, homes: Homes, at: map<int, Loc>, h: int)
    requires Stored(t, homes, at) && h in at
    ensures
      var t' := Put(t, at[h], Slot(h, None));
      Stored(t', homes, at - {h}) && View(t', homes, at - {h}) == View(t, homes, at) - {h}
  {
    var t' := Put(t, at[h], Slot(h, None));
    assert HeldAt(t, homes, h, at[h]);
    forall g | g in at - {h} ensures HeldAt(t', homes, g, at[g]) {
      assert HeldAt(t, homes, g, at[g]);
    }
  }

  /** A hash that is not stored can go into an empty slot of one of its buckets, past slots that do
      not have it. */
  lemma Added<V>(t: Table<V>, homes: Homes, at: map<int, Loc>, l: Loc, h: int, v: V)
    requires Stored(t, homes, at) && h !in at && homes.first(h) < |t|
    requires In(t, l) && At(t, l).value.None? && homes.Has(h, l.bucket) && Lacks(t[l.bucket], h, l.slot)
    requires l.bucket != homes.first(h) ==> Lacks(t[homes.first(h)], h, |t[homes.first(h)]|)
    ensures
      var t' := Put(t, l, Slot(h, Some(v)));
      Stored(t', homes, at[h := l]) && View(t', homes, at[h := l]) == View(t, homes, at)[h := v]
  {
    var t' := Put(t, l, Slot(h, Some(v)));
    var at' := at[h := l];
    forall g | g in at' ensures HeldAt(t', homes, g, at'[g]) {
      if g != h { assert HeldAt(t, homes, g, at[g]); }
    }
  }

  /** In a bucket that is full up to slot `n`, a hash that is not stored occurs in none of those slots. */
  lemma LacksAbsent<V>(t: Table<V>, homes: Homes, at: map<int, Loc>, b: nat, h: int, n: nat)
    requires Stored(t, homes, at) && h !in at && b < |t| && n <= |t[b]|
    requires forall s :: 0 <= s < n ==> t[b][s].value.Some?
    ensures Lacks(t[b], h, n)
  {
    forall s | 0 <= s < n ensures t[b][s].hash != h {
      assert At(t, Loc(b, s)).value.Some?;
    }
  }
}
