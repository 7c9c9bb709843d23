/** The longest-prefix match tree of the classifier, as a value: what a walk over the linked nodes
    computes.  `TrieNodes` holds the linked nodes themselves and refines these functions. */
module PrefixTrie {
  import opened Bits

  /** Max bits per node. */
  const TRIE_PREFIX_BITS := 32

  datatype Trie = Nil | Node(prefix: Bits, rules: nat, zero: Trie, one: Trie) {
    predicate IsLeaf() {
      Node? && zero.Nil? && one.Nil?
    }

    function Child(bit: bool): Trie
      requires Node?
    {
      if bit then one else zero
    }

    function WithChild(bit: bool, child: Trie): Trie
      requires Node?
    {
      if bit then this.(one := child) else this.(zero := child)
    }
  }

  /** The number of rules stored under exactly the prefix `p`: the multiset a trie stands for. */
  function Count(t: Trie, p: Bits): nat
    decreases t
  {
    if t.Nil? || !(t.prefix <= p) then 0
    else if |p| == |t.prefix| then t.rules
    else Count(t.Child(p[|t.prefix|]), p[|t.prefix|..])
  }

  /** A node below an edge labelled `bit` starts with that bit, so it is never empty. */
  predicate OnEdge(t: Trie, bit: bool) {
    t.Node? ==> |t.prefix| > 0 && t.prefix[0] == bit
  }

  /** What every operation keeps: nodes hold at most 32 bits, children hang on the edge of their
      first bit, and every leaf carries a rule. */
  ghost predicate WellFormed(t: Trie) {
    t.Node? ==>
      && |t.prefix| <= TRIE_PREFIX_BITS
      && (t.IsLeaf() ==> t.rules > 0)
      && OnEdge(t.zero, false) && OnEdge(t.one, true)
      && WellFormed(t.zero) && WellFormed(t.one)
  }

  /** The number of bits on the longest path. */
  ghost function Depth(t: Trie): nat {
    if t.Nil? then 0
    else
      var l, r := Depth(t.zero), Depth(t.one);
      |t.prefix| + if l < r then r else l
  }

  // ----- insertion

  /** A chain of nodes for the bits `p`, ending in a node with `rules` rules. */
  function Branch(p: Bits, rules: nat): Trie
    decreases |p|
  {
    if |p| <= TRIE_PREFIX_BITS then Node(p, rules, Nil, Nil)
    else
      Node(p[..TRIE_PREFIX_BITS], 0, Nil, Nil)
        .WithChild(p[TRIE_PREFIX_BITS], Branch(p[TRIE_PREFIX_BITS..], rules))
  }

  /** The new parent put above `t` when only the first `e` of its bits match `p`. */
  function Split(t: Trie, p: Bits, e: nat): Trie
    requires t.Node? && e < |t.prefix| && e <= |p|
  {
    var lower := t.(prefix := t.prefix[e..]);
    var branch := if e < |p| then Branch(p[e..], 1) else Nil;
    var rules := if e == |p| then 1 else 0;
    if t.prefix[e] then Node(p[..e], rules, branch, lower) else Node(p[..e], rules, lower, branch)
  }

  function Insert(t: Trie, p: Bits): Trie
    decreases t
  {
    if t.Nil? then Branch(p, 1)
    else
      var e := CommonPrefix(t.prefix, p);
      if e < |t.prefix| then Split(t, p, e)
      else if e == |p| then t.(rules := t.rules + 1)
      else t.WithChild(p[e], Insert(t.Child(p[e]), p[e..]))
  }

  lemma {:induction false} BranchStores(p: Bits, rules: nat, q: Bits)
    ensures Count(Branch(p, rules), q) == if p == q then rules else 0
    decreases |p|
  {
    var k := TRIE_PREFIX_BITS;
    if |p| > k {
      BranchStores(p[k..], rules, if |q| > k then q[k..] else q);
      assert p == p[..k] + p[k..];
      if p[..k] <= q {
        assert q == q[..k] + q[k..] && q[..k] == p[..k];
        assert p == q <==> |q| > k && p[k..] == q[k..];
        if |q| > k && p[k] != q[k] {
          assert p[k..][0] != q[k..][0];
        }
      }
    }
  }

  lemma {:induction false} BranchShape(p: Bits, rules: nat)
    requires rules > 0
    ensures WellFormed(Branch(p, rules)) && Depth(Branch(p, rules)) == |p|
    ensures p != [] ==> OnEdge(Branch(p, rules), p[0])
    decreases |p|
  {
    var k := TRIE_PREFIX_BITS;
    if |p| > k {
      BranchShape(p[k..], rules);
      assert p[k..][0] == p[k];
    }
  }

  /** Cutting `e` bits off the front of a node cuts them off every prefix stored in it. */
  lemma CutFront(t: Trie, e: nat, q: Bits)
    requires t.Node? && e <= |t.prefix| && e <= |q| && q[..e] == t.prefix[..e]
    ensures Count(t, q) == Count(t.(prefix := t.prefix[e..]), q[e..])
  {
    assert t.prefix == t.prefix[..e] + t.prefix[e..];
    assert q == q[..e] + q[e..];
    assert t.prefix <= q <==> t.prefix[e..] <= q[e..];
    if t.prefix <= q && |q| > |t.prefix| {
      assert q[e..][|t.prefix| - e..] == q[|t.prefix|..];
    }
  }

  lemma SplitStores(t: Trie, p: Bits, q: Bits)
    requires t.Node? && CommonPrefix(t.prefix, p) < |t.prefix|
    ensures Count(Split(t, p, CommonPrefix(t.prefix, p)), q) == Count(t, q) + if p == q then 1 else 0
  {
    var e := CommonPrefix(t.prefix, p);
    var n := Split(t, p, e);
    assert p == p[..e] + p[e..];
    if !(p[..e] <= q) {
      PrefixHead(t.prefix, q, e);
    } else {
      assert q == q[..e] + q[e..];
      if |q| == e {
        assert !(t.prefix <= q);
      } else {
        assert p == q <==> p[e..] == q[e..];
        CutFront(t, e, q);
        if q[e] == t.prefix[e] {
          if e < |p| { assert p[e..][0] != q[e..][0]; }
        } else {
          assert t.prefix[e..][0] != q[e..][0];
          if e < |p| { BranchStores(p[e..], 1, q[e..]); }
        }
      }
    }
  }

  /** Inserting `p` adds one to the multiplicity of `p` and changes no other. */
  lemma {:induction false} InsertStores(t: Trie, p: Bits, q: Bits)
    ensures Count(Insert(t, p), q) == Count(t, q) + if p == q then 1 else 0
    decreases t
  {
    if t.Nil? {
      BranchStores(p, 1, q);
    } else {
      var e := CommonPrefix(t.prefix, p);
      CommonPrefixWhole(t.prefix, p);
      if e < |t.prefix| {
        SplitStores(t, p, q);
      } else if e == |p| {
        assert p == t.prefix;
      } else {
        if t.prefix <= q && |q| > e {
          InsertStores(t.Child(p[e]), p[e..], q[e..]);
        }
        ChildStores(t, Insert(t.Child(p[e]), p[e..]), p, q, 1);
      }
    }
  }

  lemma SplitShape(t: Trie, p: Bits, e: nat)
    requires WellFormed(t) && t.Node? && Agreement(t.prefix, p, e) && e < |t.prefix|
    ensures WellFormed(Split(t, p, e))
    ensures Depth(Split(t, p, e)) <= if Depth(t) < |p| then |p| else Depth(t)
    ensures p != [] && OnEdge(t, p[0]) ==> OnEdge(Split(t, p, e), p[0])
  {
    var lower := t.(prefix := t.prefix[e..]);
    assert lower.prefix[0] == t.prefix[e];
    assert WellFormed(lower) && e + Depth(lower) == Depth(t);
    if e < |p| {
      BranchShape(p[e..], 1);
    }
  }

  lemma {:induction false} InsertShape(t: Trie, p: Bits)
    requires WellFormed(t)
    ensures WellFormed(Insert(t, p)) && Insert(t, p).Node?
    ensures Depth(Insert(t, p)) <= if Depth(t) < |p| then |p| else Depth(t)
    ensures p != [] && OnEdge(t, p[0]) ==> OnEdge(Insert(t, p), p[0])
    decreases t
  {
    if t.Nil? {
      BranchShape(p, 1);
    } else {
      var e := CommonPrefix(t.prefix, p);
      if e < |t.prefix| {
        SplitShape(t, p, e);
      } else if e == |p| {
      } else {
        InsertShape(t.Child(p[e]), p[e..]);
      }
    }
  }

  // ----- removal

  /** One step of pruning at a node: gone if it has neither rules nor children, merged with an only
      child when the bits of both fit into one node. */
  function Prune(t: Trie): Trie
    requires t.Node?
  {
    if t.rules > 0 || (t.zero.Node? && t.one.Node?) then t
    else
      var next := if t.zero.Node? then t.zero else t.one;
      if next.Nil? then Nil
      else if |t.prefix| + |next.prefix| > TRIE_PREFIX_BITS then t
      else next.(prefix := t.prefix + next.prefix)
  }

  function Remove(t: Trie, p: Bits): Trie
    decreases t
  {
    if t.Nil? then t
    else
      var e := CommonPrefix(t.prefix, p);
      if e < |t.prefix| then t
      else if e == |p| then
        if t.rules == 0 then t else Prune(t.(rules := t.rules - 1))
      else
        var child := t.Child(p[e]);
        var child' := Remove(child, p[e..]);
        if child.Node? && child'.Nil? then Prune(t.WithChild(p[e], Nil))
        else t.WithChild(p[e], child')
  }

  /** Removal below an edge. */
  lemma RemoveStep(t: Trie, p: Bits)
    requires t.Node? && t.prefix <= p && |t.prefix| < |p|
    ensures
      var bit := p[|t.prefix|];
      var child' := Remove(t.Child(bit), p[|t.prefix|..]);
      Remove(t, p) == if t.Child(bit).Node? && child'.Nil? then Prune(t.WithChild(bit, Nil)) else t.WithChild(bit, child')
  {
    CommonPrefixWhole(t.prefix, p);
  }

  lemma PruneStores(t: Trie, q: Bits)
    requires t.Node? && OnEdge(t.zero, false) && OnEdge(t.one, true)
    ensures Count(Prune(t), q) == Count(t, q)
  {
    var next := if t.zero.Node? then t.zero else t.one;
    if t.rules == 0 && !(t.zero.Node? && t.one.Node?) {
      if next.Nil? {
      } else if |t.prefix| + |next.prefix| <= TRIE_PREFIX_BITS {
        var whole := next.(prefix := t.prefix + next.prefix);
        if t.prefix <= q {
          assert q[..|t.prefix|] == t.prefix == whole.prefix[..|t.prefix|];
          CutFront(whole, |t.prefix|, q);
          assert whole.prefix[|t.prefix|..] == next.prefix;
          assert whole.(prefix := next.prefix) == next;
          if |q| > |t.prefix| && q[|t.prefix|] != next.prefix[0] {
            assert q[|t.prefix|..][0] != next.prefix[0];
          }
        } else {
          assert t.prefix == whole.prefix[..|t.prefix|];
        }
      }
    }
  }

  lemma PruneShape(t: Trie)
    requires t.Node? && |t.prefix| <= TRIE_PREFIX_BITS
    requires OnEdge(t.zero, false) && OnEdge(t.one, true) && WellFormed(t.zero) && WellFormed(t.one)
    ensures WellFormed(Prune(t)) && Depth(Prune(t)) <= Depth(t)
    ensures forall b :: OnEdge(t, b) ==> OnEdge(Prune(t), b)
  {
  }

  /** Changing the multiplicity of one prefix below an edge changes that of the longer prefix. */
  lemma ChildStores(t: Trie, child': Trie, p: Bits, q: Bits, delta: int)
    requires t.Node? && t.prefix <= p && |t.prefix| < |p|
    requires
      var e := |t.prefix|;
      t.prefix <= q && e < |q| ==>
        Count(child', q[e..]) == Count(t.Child(p[e]), q[e..]) + if p[e..] == q[e..] then delta else 0
    ensures Count(t.WithChild(p[|t.prefix|], child'), q) == Count(t, q) + if p == q then delta else 0
  {
    var e := |t.prefix|;
    assert p == t.prefix + p[e..];
    if t.prefix <= q && e < |q| {
      assert q == t.prefix + q[e..];
      if p[e] != q[e] { assert p[e..][0] != q[e..][0]; }
    }
  }

  /** Removing a stored prefix takes one from its multiplicity and changes no other. */
  lemma {:induction false} RemoveStores(t: Trie, p: Bits, q: Bits)
    requires WellFormed(t) && Count(t, p) > 0
    ensures Count(Remove(t, p), q) == Count(t, q) - if p == q then 1 else 0
    decreases t
  {
    var e := |t.prefix|;
    CommonPrefixWhole(t.prefix, p);
    if e == |p| {
      assert p == t.prefix;
      PruneStores(t.(rules := t.rules - 1), q);
    } else {
      var child := t.Child(p[e]);
      var child' := Remove(child, p[e..]);
      RemoveShape(child, p[e..]);
      PruneStores(t.WithChild(p[e], child'), q);
      if t.prefix <= q && |q| > e {
        RemoveStores(child, p[e..], q[e..]);
      }
      ChildStores(t, child', p, q, -1);
    }
  }

  /** Removing a prefix that is not stored changes nothing. */
  lemma {:induction false} RemoveAbsent(t: Trie, p: Bits)
    requires Count(t, p) == 0
    ensures Remove(t, p) == t
    decreases t
  {
    if t.Node? {
      var e := CommonPrefix(t.prefix, p);
      CommonPrefixWhole(t.prefix, p);
      if e == |t.prefix| && e < |p| {
        RemoveAbsent(t.Child(p[e]), p[e..]);
      } else if e == |t.prefix| {
        assert p == t.prefix;
      }
    }
  }

  lemma {:induction false} RemoveShape(t: Trie, p: Bits)
    requires WellFormed(t)
    ensures WellFormed(Remove(t, p)) && Depth(Remove(t, p)) <= Depth(t)
    ensures t.Nil? ==> Remove(t, p).Nil?
    ensures forall b :: t.Node? && OnEdge(t, b) ==> OnEdge(Remove(t, p), b)
    decreases t
  {
    hide Remove, Prune, OnEdge;
    if t.Node? && t.prefix <= p && |t.prefix| < |p| {
      var e := |t.prefix|;
      RemoveStep(t, p);
      RemoveShape(t.Child(p[e]), p[e..]);
      ReplacedShape(t, p[e], Remove(t.Child(p[e]), p[e..]));
    } else {
      RemoveShapeHere(t, p);
    }
  }

  /** A child may give way to one that is no deeper and fits on its edge. */
  lemma ReplacedShape(t: Trie, bit: bool, child': Trie)
    requires t.Node? && WellFormed(t) && WellFormed(child') && Depth(child') <= Depth(t.Child(bit))
    requires if t.Child(bit).Nil? then child'.Nil? else OnEdge(child', bit)
    ensures
      var t' := if t.Child(bit).Node? && child'.Nil? then Prune(t.WithChild(bit, Nil)) else t.WithChild(bit, child');
      WellFormed(t') && Depth(t') <= Depth(t) && forall b :: OnEdge(t, b) ==> OnEdge(t', b)
  {
    if t.Child(bit).Node? && child'.Nil? {
      hide Prune;
      PruneShape(t.WithChild(bit, Nil));
    }
  }

  lemma RemoveShapeHere(t: Trie, p: Bits)
    requires WellFormed(t) && (t.Nil? || !(t.prefix <= p) || |t.prefix| >= |p|)
    ensures WellFormed(Remove(t, p)) && Depth(Remove(t, p)) <= Depth(t)
    ensures t.Nil? ==> Remove(t, p).Nil?
    ensures forall b :: t.Node? && OnEdge(t, b) ==> OnEdge(Remove(t, p), b)
  {
    hide Prune;
    if t.Node? {
      CommonPrefixWhole(t.prefix, p);
      if t.rules > 0 {
        PruneShape(t.(rules := t.rules - 1));
      }
    }
  }

  /** Some prefix that a non-empty trie stores. */
  function SomePrefix(t: Trie): (p: Bits)
    requires WellFormed(t) && t.Node?
    ensures Count(t, p) > 0
  {
    if t.rules > 0 then t.prefix
    else
      var child := if t.zero.Node? then t.zero else t.one;
      var rest := SomePrefix(child);
      assert child.prefix <= rest;
      assert (t.prefix + rest)[|t.prefix|..] == rest;
      t.prefix + rest
  }

  // ----- lookup

  /** `bits`: how many leading bits of the value the answer depends on.
      `plens`: the lengths of the stored prefixes that match. */
  datatype Found = Found(bits: nat, plens: set<nat>)

  /** The walk at `t`, with the bits `rest` of the value still to match after the first `ofs`.
      `ends` says that no node has been passed or that the last one was a leaf. */
  function Walk(t: Trie, ends: bool, rest: Bits, ofs: nat): Found
    decreases t
  {
    if t.Nil? then
      Found(if ends then ofs else ofs + 1, {})
    else
      if !(t.prefix <= rest) then Found(ofs + CommonPrefix(t.prefix, rest) + 1, {})
      else
        var e := |t.prefix|;
        var own := if t.rules > 0 then {ofs + e} else {};
        if e == |rest| then Found(ofs + e, own)
        else
          var below := Walk(t.Child(rest[e]), t.IsLeaf(), rest[e..], ofs + e);
          Found(below.bits, own + below.plens)
  }

  function Lookup(t: Trie, v: Bits): Found {
    Walk(t, true, v, 0)
  }

  /** One step of the walk past a fully matched node. */
  lemma WalkStep(t: Trie, ends: bool, rest: Bits, ofs: nat)
    requires t.Node? && t.prefix <= rest && |t.prefix| < |rest|
    ensures
      var e := |t.prefix|;
      var own := if t.rules > 0 then {ofs + e} else {};
      var below := Walk(t.Child(rest[e]), t.IsLeaf(), rest[e..], ofs + e);
      Walk(t, ends, rest, ofs) == Found(below.bits, own + below.plens)
  {
  }

  /** The walks that end at a node. */
  lemma WalkStops(t: Trie, ends: bool, rest: Bits, ofs: nat)
    ensures t.Nil? ==> Walk(t, ends, rest, ofs) == Found(if ends then ofs else ofs + 1, {})
    ensures t.Node? && !(t.prefix <= rest) ==> Walk(t, ends, rest, ofs) == Found(ofs + CommonPrefix(t.prefix, rest) + 1, {})
    ensures t.Node? && t.prefix <= rest && |t.prefix| == |rest| ==>
      Walk(t, ends, rest, ofs) == Found(ofs + |t.prefix|, if t.rules > 0 then {ofs + |t.prefix|} else {})
  {
  }

  lemma DepthBelow(t: Trie, bit: bool)
    requires t.Node?
    ensures |t.prefix| + Depth(t.Child(bit)) <= Depth(t)
  {
  }

  /** The walk reads no bit beyond the value, reads every bit of each match it reports, and
      reports nothing shorter than the bits already passed. */
  lemma {:induction false} WalkRange(t: Trie, ends: bool, rest: Bits, ofs: nat)
    requires Depth(t) <= |rest| && (rest == [] ==> ends)
    ensures
      var r := Walk(t, ends, rest, ofs);
      && ofs <= r.bits <= ofs + |rest|
      && (t.Nil? ==> r.plens == {})
      && (t.Node? ==> forall len :: len in r.plens ==> ofs + |t.prefix| <= len <= r.bits)
    decreases t
  {
    hide Walk, Depth, CommonPrefix;
    WalkStops(t, ends, rest, ofs);
    if t.Node? {
      var e := |t.prefix|;
      CommonPrefixWhole(t.prefix, rest);
      DepthBelow(t, true);
      if t.prefix <= rest && e < |rest| {
        DepthBelow(t, rest[e]);
        WalkStep(t, ends, rest, ofs);
        WalkRange(t.Child(rest[e]), t.IsLeaf(), rest[e..], ofs + e);
      }
    }
  }

  /** Following an edge takes the node's bits off every prefix that is longer. */
  lemma CountBelow(t: Trie, rest: Bits, len: nat)
    requires t.Node? && t.prefix <= rest && |t.prefix| < len <= |rest|
    ensures Count(t, rest[..len]) == Count(t.Child(rest[|t.prefix|]), rest[|t.prefix|..][..len - |t.prefix|])
  {
    var e := |t.prefix|;
    assert t.prefix <= rest[..len];
    assert rest[..len][e..] == rest[e..][..len - e];
  }

  /** A longer length is reported exactly when the walk below the edge reports it. */
  lemma WalkDeeper(t: Trie, ends: bool, rest: Bits, ofs: nat, len: nat)
    requires t.Node? && t.prefix <= rest && |t.prefix| < len <= |rest|
    ensures
      var e := |t.prefix|;
      ofs + len in Walk(t, ends, rest, ofs).plens
      <==> ofs + len in Walk(t.Child(rest[e]), t.IsLeaf(), rest[e..], ofs + e).plens
  {
  }

  /** What is not a prefix of the value is not counted for any prefix of the value. */
  lemma CountMismatch(t: Trie, rest: Bits, len: nat)
    requires t.Node? && len <= |rest| && (!(t.prefix <= rest) || len < |t.prefix|)
    ensures Count(t, rest[..len]) == 0
  {
  }

  lemma WalkMismatch(t: Trie, ends: bool, rest: Bits, ofs: nat, len: nat)
    requires Depth(t) <= |rest| && (rest == [] ==> ends)
    requires t.Node? && len <= |rest| && (!(t.prefix <= rest) || len < |t.prefix|)
    ensures ofs + len !in Walk(t, ends, rest, ofs).plens
  {
    if t.prefix <= rest {
      hide Walk;
      WalkRange(t, ends, rest, ofs);
    }
  }

  lemma ChildFits(t: Trie, rest: Bits)
    requires t.Node? && WellFormed(t) && Depth(t) <= |rest| && |t.prefix| < |rest|
    ensures WellFormed(t.Child(rest[|t.prefix|])) && Depth(t.Child(rest[|t.prefix|])) <= |rest[|t.prefix|..]|
  {
  }

  lemma NilWalk(ends: bool, rest: Bits, ofs: nat, len: nat)
    requires len <= |rest|
    ensures Walk(Nil, ends, rest, ofs).plens == {} && Count(Nil, rest[..len]) == 0
  {
  }

  lemma CountHere(t: Trie)
    requires t.Node?
    ensures Count(t, t.prefix) == t.rules
  {
  }

  lemma {:induction false} WalkExact(t: Trie, ends: bool, rest: Bits, ofs: nat, len: nat)
    requires Depth(t) <= |rest| && (rest == [] ==> ends) && WellFormed(t) && len <= |rest|
    ensures ofs + len in Walk(t, ends, rest, ofs).plens <==> Count(t, rest[..len]) > 0
    decreases t
  {
    hide Walk, Count, WellFormed, Depth;
    if t.Nil? {
      NilWalk(ends, rest, ofs, len);
    } else {
      var e := |t.prefix|;
      if !(t.prefix <= rest) || len < e {
        CountMismatch(t, rest, len);
        WalkMismatch(t, ends, rest, ofs, len);
      } else if e < len {
        CountBelow(t, rest, len);
        WalkDeeper(t, ends, rest, ofs, len);
        ChildFits(t, rest);
        WalkExact(t.Child(rest[e]), t.IsLeaf(), rest[e..], ofs + e, len - e);
      } else {
        WalkHere(t, ends, rest, ofs);
        assert rest[..len] == t.prefix;
        CountHere(t);
      }
    }
  }

  lemma EdgeBelow(t: Trie, bit: bool)
    requires t.Node? && WellFormed(t)
    ensures t.Child(bit).Node? ==> t.Child(bit).prefix != []
  {
  }

  /** A node reports its own length exactly when it carries rules. */
  lemma WalkHere(t: Trie, ends: bool, rest: Bits, ofs: nat)
    requires Depth(t) <= |rest| && (rest == [] ==> ends) && WellFormed(t)
    requires t.Node? && t.prefix <= rest
    ensures ofs + |t.prefix| in Walk(t, ends, rest, ofs).plens <==> t.rules > 0
  {
    hide Walk, Depth, WellFormed;
    var e := |t.prefix|;
    WalkStops(t, ends, rest, ofs);
    if e < |rest| {
      EdgeBelow(t, rest[e]);
      DepthBelow(t, rest[e]);
      WalkStep(t, ends, rest, ofs);
      WalkRange(t.Child(rest[e]), t.IsLeaf(), rest[e..], ofs + e);
    }
  }

  /** A length is reported exactly when a stored prefix of that length matches the value, and the
      reported number of bits covers every match. */
  lemma LookupExact(t: Trie, v: Bits, len: nat)
    requires Depth(t) <= |v| && WellFormed(t) && len <= |v|
    ensures len in Lookup(t, v).plens <==> Count(t, v[..len]) > 0
    ensures Lookup(t, v).bits <= |v|
    ensures len in Lookup(t, v).plens ==> len <= Lookup(t, v).bits
  {
    WalkExact(t, true, v, 0, len);
    WalkRange(t, true, v, 0);
  }

  /** Below a node, the next bit goes unread only when the node is a leaf. */
  lemma WalkReadsEdge(t: Trie, ends: bool, rest: Bits, ofs: nat)
    requires Depth(t) <= |rest| && rest != []
    requires t.Node? ==> |t.prefix| > 0
    ensures Walk(t, ends, rest, ofs).bits == ofs ==> t.Nil? && ends
  {
    if t.Node? {
      var e := |t.prefix|;
      CommonPrefixWhole(t.prefix, rest);
      if t.prefix <= rest && e < |rest| {
        WalkRange(t.Child(rest[e]), t.IsLeaf(), rest[e..], ofs + e);
      }
    }
  }

  lemma {:induction false} WalkStable(t: Trie, ends: bool, rest: Bits, other: Bits, ofs: nat, m: nat)
    requires Depth(t) <= |rest| == |other| && (rest == [] ==> ends) && WellFormed(t)
    requires Walk(t, ends, rest, ofs).bits == ofs + m && m <= |rest| && rest[..m] == other[..m]
    ensures Walk(t, ends, other, ofs) == Walk(t, ends, rest, ofs)
    decreases t
  {
    hide Walk;
    if t.Node? && t.prefix <= rest && |t.prefix| < |rest| {
      var e := |t.prefix|;
      WalkBelow(t, ends, rest, ofs);
      SameTail(rest, other, e, m);
      if e < m {
        WalkStable(t.Child(rest[e]), t.IsLeaf(), rest[e..], other[e..], ofs + e, m - e);
      }
      WalkSameNode(t, ends, rest, other, ofs);
    } else {
      WalkEnds(t, ends, rest, other, ofs, m);
    }
  }

  /** What the walk past a fully matched node reads. */
  lemma WalkBelow(t: Trie, ends: bool, rest: Bits, ofs: nat)
    requires Depth(t) <= |rest| && WellFormed(t)
    requires t.Node? && t.prefix <= rest && |t.prefix| < |rest|
    ensures
      var e := |t.prefix|;
      var bits := Walk(t, ends, rest, ofs).bits;
      && ofs + e <= bits && (ofs + e == bits ==> t.IsLeaf())
      && Walk(t.Child(rest[e]), t.IsLeaf(), rest[e..], ofs + e).bits == bits
  {
    var e := |t.prefix|;
    WalkStep(t, ends, rest, ofs);
    WalkRange(t.Child(rest[e]), t.IsLeaf(), rest[e..], ofs + e);
    WalkReadsEdge(t.Child(rest[e]), t.IsLeaf(), rest[e..], ofs + e);
  }

  lemma WalkEnds(t: Trie, ends: bool, rest: Bits, other: Bits, ofs: nat, m: nat)
    requires t.Node? ==> |t.prefix| <= |rest| == |other| && (t.prefix <= rest ==> |t.prefix| == |rest|)
    requires Walk(t, ends, rest, ofs).bits == ofs + m && m <= |rest| && m <= |other| && rest[..m] == other[..m]
    ensures Walk(t, ends, other, ofs) == Walk(t, ends, rest, ofs)
  {
    if t.Node? {
      CommonPrefixWhole(t.prefix, rest);
      CommonPrefixWhole(t.prefix, other);
      if t.prefix <= rest {
        assert rest == rest[..m] == other[..m] == other;
      } else {
        CommonPrefixDetermined(t.prefix, rest, other);
      }
    }
  }

  lemma WalkSameNode(t: Trie, ends: bool, rest: Bits, other: Bits, ofs: nat)
    requires t.Node? && |t.prefix| < |rest| == |other| && t.prefix <= rest && t.prefix <= other
    requires
      var e := |t.prefix|;
      || t.IsLeaf()
      || (&& rest[e] == other[e]
          && Walk(t.Child(rest[e]), t.IsLeaf(), other[e..], ofs + e)
             == Walk(t.Child(rest[e]), t.IsLeaf(), rest[e..], ofs + e))
    ensures Walk(t, ends, other, ofs) == Walk(t, ends, rest, ofs)
  {
    WalkStep(t, ends, rest, ofs);
    WalkStep(t, ends, other, ofs);
  }

  /** Every value that agrees with `v` on the reported bits gets the same answer. */
  lemma LookupStable(t: Trie, v: Bits, w: Bits)
    requires Depth(t) <= |v| && WellFormed(t) && |v| == |w|
    requires Lookup(t, v).bits <= |v| ==> v[..Lookup(t, v).bits] == w[..Lookup(t, v).bits]
    ensures Lookup(t, w) == Lookup(t, v)
  {
    WalkRange(t, true, v, 0);
    WalkStable(t, true, v, w, 0, Lookup(t, v).bits);
  }

  /** Some stored prefix matches one of the values and not the other. */
  ghost predicate ToldApart(t: Trie, v: Bits, w: Bits) {
    exists p :: Count(t, p) > 0 && (p <= v) != (p <= w)
  }

  /** What is stored under a node starts with the node's bits. */
  lemma StartsWithNode(t: Trie, p: Bits)
    requires t.Node? && Count(t, p) > 0
    ensures t.prefix <= p
  {
  }

  lemma {:induction false} StoredFits(t: Trie, p: Bits)
    requires Count(t, p) > 0
    ensures |p| <= Depth(t)
    decreases t
  {
    var e := |t.prefix|;
    if e < |p| {
      StoredFits(t.Child(p[e]), p[e..]);
    }
  }

  lemma CountThrough(t: Trie, q: Bits)
    requires t.Node? && q != []
    ensures Count(t, t.prefix + q) == Count(t.Child(q[0]), q)
  {
    assert (t.prefix + q)[|t.prefix|..] == q;
  }

  /** The value `w` agrees with `v` on `n` bits, and `p` is stored and matches just one of them. */
  ghost predicate Apart(t: Trie, v: Bits, w: Bits, n: int, p: Bits) {
    0 <= n <= |v| == |w| && w[..n] == v[..n] && Count(t, p) > 0 && (p <= v) != (p <= w)
  }

  /** Where the bits of a node and of the value part, the node's prefixes would match after one bit more. */
  lemma ApartAtMismatch(t: Trie, v: Bits) returns (w: Bits, p: Bits)
    requires t.Node? && WellFormed(t) && Depth(t) <= |v| && !(t.prefix <= v)
    ensures Apart(t, v, w, CommonPrefix(t.prefix, v), p)
  {
    hide Count, SomePrefix;
    CommonPrefixWhole(t.prefix, v);
    p := SomePrefix(t);
    StartsWithNode(t, p);
    StoredFits(t, p);
    w := p + v[|p|..];
  }

  /** A leaf that matches stops matching when its last bit changes. */
  lemma ApartAtLeaf(t: Trie, v: Bits) returns (w: Bits, p: Bits)
    requires t.Node? && WellFormed(t) && t.IsLeaf() && t.prefix <= v && t.prefix != []
    ensures Apart(t, v, w, |t.prefix| - 1, p)
  {
    var e := |t.prefix|;
    p, w := t.prefix, v[e - 1 := !v[e - 1]];
    CountHere(t);
    assert p[e - 1] != w[e - 1];
  }

  /** Where a branch is missing, the prefixes of the other branch would match after one bit more. */
  lemma ApartAtBranch(t: Trie, v: Bits) returns (w: Bits, p: Bits)
    requires t.Node? && WellFormed(t) && Depth(t) <= |v| && t.prefix <= v && |t.prefix| < |v|
    requires t.Child(v[|t.prefix|]).Nil? && !t.IsLeaf()
    ensures Apart(t, v, w, |t.prefix|, p)
  {
    hide Count, SomePrefix;
    var e := |t.prefix|;
    var other := t.Child(!v[e]);
    var q := SomePrefix(other);
    StartsWithNode(other, q);
    StoredFits(other, q);
    CountThrough(t, q);
    p := t.prefix + q;
    w := p + v[|p|..];
    assert p[e] != v[e];
  }

  /** What tells values apart below an edge does so above it. */
  lemma ApartBelow(t: Trie, v: Bits, w: Bits, n: int, p: Bits)
    requires t.Node? && WellFormed(t) && t.prefix <= v && |t.prefix| < |v| && t.Child(v[|t.prefix|]).Node?
    requires Apart(t.Child(v[|t.prefix|]), v[|t.prefix|..], w, n, p)
    ensures Apart(t, v, t.prefix + w, |t.prefix| + n, t.prefix + p)
  {
    hide Count, WellFormed;
    var e := |t.prefix|;
    EdgeBelow(t, v[e]);
    EdgeBit(t, v[e]);
    StartsWithNode(t.Child(v[e]), p);
    CountThrough(t, p);
    assert v == t.prefix + v[e..];
    SamePrefixes(t.prefix, p, v[e..]);
    SamePrefixes(t.prefix, p, w);
    SameStart(t.prefix, v, w, n);
  }

  lemma EdgeBit(t: Trie, bit: bool)
    requires t.Node? && WellFormed(t) && t.Child(bit).Node? && t.Child(bit).prefix != []
    ensures t.Child(bit).prefix[0] == bit
  {
  }

  lemma SameStart(a: Bits, v: Bits, w: Bits, n: nat)
    requires a <= v && n <= |v| - |a| == |w| && w[..n] == v[|a|..][..n]
    ensures (a + w)[..|a| + n] == v[..|a| + n]
  {
    assert (a + w)[..|a| + n] == a + w[..n] && v[..|a| + n] == a + v[|a|..][..n];
  }

  /** How many bits the walk reports, exit by exit. */
  lemma WalkBits(t: Trie, ends: bool, rest: Bits, ofs: nat)
    requires t.Node? && WellFormed(t) && Depth(t) <= |rest|
    ensures
      var e, bits := |t.prefix|, Walk(t, ends, rest, ofs).bits;
      && (!(t.prefix <= rest) ==> bits == ofs + CommonPrefix(t.prefix, rest) + 1)
      && (t.prefix <= rest && e == |rest| ==> bits == ofs + e && t.IsLeaf())
      && (t.prefix <= rest && e < |rest| ==>
            var child := t.Child(rest[e]);
            bits == if child.Node? then Walk(child, t.IsLeaf(), rest[e..], ofs + e).bits
                    else if t.IsLeaf() then ofs + e else ofs + e + 1)
  {
  }

  /** One bit fewer than the walk reports is not enough: a value that agrees on those is told apart. */
  lemma {:induction false} WalkTight(t: Trie, ends: bool, rest: Bits, ofs: nat) returns (w: Bits, p: Bits)
    requires t.Node? && WellFormed(t) && Depth(t) <= |rest| && Walk(t, ends, rest, ofs).bits > ofs
    ensures Apart(t, rest, w, Walk(t, ends, rest, ofs).bits - ofs - 1, p)
    decreases t
  {
    hide Walk, Apart, WellFormed, Depth;
    var e := |t.prefix|;
    WalkBits(t, ends, rest, ofs);
    if !(t.prefix <= rest) {
      w, p := ApartAtMismatch(t, rest);
    } else if e == |rest| {
      w, p := ApartAtLeaf(t, rest);
    } else {
      var child := t.Child(rest[e]);
      if child.Node? {
        ChildFits(t, rest);
        ReadsOn(t, rest, ofs);
        w, p := WalkTight(child, t.IsLeaf(), rest[e..], ofs + e);
        ApartBelow(t, rest, w, Walk(child, t.IsLeaf(), rest[e..], ofs + e).bits - (ofs + e) - 1, p);
        w, p := t.prefix + w, t.prefix + p;
      } else if t.IsLeaf() {
        w, p := ApartAtLeaf(t, rest);
      } else {
        w, p := ApartAtBranch(t, rest);
      }
    }
  }

  lemma ReadsOn(t: Trie, rest: Bits, ofs: nat)
    requires t.Node? && WellFormed(t) && Depth(t) <= |rest| && |t.prefix| < |rest| && t.Child(rest[|t.prefix|]).Node?
    ensures Walk(t.Child(rest[|t.prefix|]), t.IsLeaf(), rest[|t.prefix|..], ofs + |t.prefix|).bits > ofs + |t.prefix|
  {
    hide Walk;
    var e := |t.prefix|;
    WalkReadsEdge(t.Child(rest[e]), t.IsLeaf(), rest[e..], ofs + e);
    WalkRange(t.Child(rest[e]), t.IsLeaf(), rest[e..], ofs + e);
  }

  lemma SamePrefixes(a: Bits, q: Bits, r: Bits)
    ensures a + q <= a + r <==> q <= r
  {
    if a + q <= a + r {
      assert q == (a + q)[|a|..] && r[..|q|] == (a + r)[|a|..|a| + |q|];
    }
  }

  /** The reported number of bits is the least that determines which stored prefixes match. */
  lemma LookupTight(t: Trie, v: Bits)
    requires WellFormed(t) && Depth(t) <= |v|
    ensures
      var bits := Lookup(t, v).bits;
      bits > 0 ==> exists w :: |w| == |v| && bits <= |v| && w[..bits - 1] == v[..bits - 1] && ToldApart(t, v, w)
  {
    hide Count, Walk, Depth, WellFormed;
    WalkStops(t, true, v, 0);
    if t.Node? && Lookup(t, v).bits > 0 {
      WalkRange(t, true, v, 0);
      var w, p := WalkTight(t, true, v, 0);
      assert ToldApart(t, v, w);
    }
  }

  // ----- whole runs

  datatype Op = Ins(p: Bits) | Del(p: Bits)

  function Apply(t: Trie, op: Op): Trie {
    match op
    case Ins(p) => Insert(t, p)
    case Del(p) => Remove(t, p)
  }

  function Run(ops: seq<Op>): Trie {
    if ops == [] then Nil else Apply(Run(ops[..|ops| - 1]), ops[|ops| - 1])
  }

  function TallyStep(m: multiset<Bits>, op: Op): multiset<Bits> {
    match op
    case Ins(p) => m + multiset{p}
    case Del(p) => m - multiset{p}
  }

  /** The multiset of prefixes a run leaves behind. */
  function Tally(ops: seq<Op>): multiset<Bits> {
    if ops == [] then multiset{} else TallyStep(Tally(ops[..|ops| - 1]), ops[|ops| - 1])
  }

  /** One operation moves the multiplicities as it moves the tally. */
  lemma StepExact(t: Trie, m: multiset<Bits>, op: Op, q: Bits)
    requires WellFormed(t) && Count(t, op.p) == m[op.p] && Count(t, q) == m[q]
    ensures Count(Apply(t, op), q) == TallyStep(m, op)[q]
  {
    match op
    case Ins(p) => InsertStores(t, p, q);
    case Del(p) =>
      if Count(t, p) > 0 {
        RemoveStores(t, p, q);
      } else {
        RemoveAbsent(t, p);
      }
  }

  /** After any run of insertions and removals the trie stands for exactly the multiset of what was
      put in and not taken out, and the root is null exactly when that is empty. */
  lemma {:induction false} RunExact(ops: seq<Op>, width: nat)
    requires forall op :: op in ops ==> |op.p| <= width
    ensures WellFormed(Run(ops)) && Depth(Run(ops)) <= width
    ensures forall q :: Count(Run(ops), q) == Tally(ops)[q]
    ensures Run(ops).Nil? <==> Tally(ops) == multiset{}
  {
    if ops != [] {
      var n := |ops| - 1;
      RunExact(ops[..n], width);
      InsertShape(Run(ops[..n]), ops[n].p);
      RemoveShape(Run(ops[..n]), ops[n].p);
      forall q ensures Count(Run(ops), q) == Tally(ops)[q] {
        StepExact(Run(ops[..n]), Tally(ops[..n]), ops[n], q);
      }
    }
    EmptyIffNil(Run(ops), Tally(ops));
  }

  /** A well-formed trie is null exactly when it stores nothing. */
  lemma EmptyIffNil(t: Trie, m: multiset<Bits>)
    requires WellFormed(t) && forall q :: Count(t, q) == m[q]
    ensures t.Nil? <==> m == multiset{}
  {
    if t.Node? {
      assert m[SomePrefix(t)] > 0;
    } else {
      assert forall q :: m[q] == Count(t, q) == 0;
    }
  }
}
