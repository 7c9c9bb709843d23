/** The trie as linked nodes that the classifier's writer changes in place.  A node whose bits change
    is copied first, so a reader still holding the old node sees the tree it started in; a node whose
    rule count or edge changes is written where it stands. */
module TrieNodes {
  import opened Bits
  import opened PrefixTrie

  class TrieNode {
    const prefix: Bits
    var rules: nat
    var zero: TrieNode?
    var one: TrieNode?
    ghost var repr: set<TrieNode>

    ghost predicate Valid()
      reads this, repr
      decreases repr
    {
      && this in repr
      && (zero != null ==> zero in repr && zero.repr <= repr && this !in zero.repr && zero.Valid())
      && (one != null ==> one in repr && one.repr <= repr && this !in one.repr && one.Valid())
      && (zero != null && one != null ==> zero.repr !! one.repr)
    }

    /** The value these nodes stand for. */
    ghost function Model(): (t: Trie)
      requires Valid()
      reads this, repr
      ensures t.Node? && (t.IsLeaf() <==> zero == null && one == null)
      decreases repr
    {
      Node(prefix, rules,
           if zero == null then Nil else zero.Model(),
           if one == null then Nil else one.Model())
    }

    function Edge(bit: bool): TrieNode?
      reads this
    {
      if bit then one else zero
    }

    constructor (prefix: Bits, rules: nat, zero: TrieNode?, one: TrieNode?)
      requires zero != null ==> zero.Valid()
      requires one != null ==> one.Valid()
      requires zero != null && one != null ==> zero.repr !! one.repr
      ensures Valid() && repr == {this} + ReprOf(zero) + ReprOf(one)
      ensures Model() == Node(prefix, rules, ModelOf(zero), ModelOf(one))
    {
      this.prefix, this.rules, this.zero, this.one := prefix, rules, zero, one;
      repr := {this} + ReprOf(zero) + ReprOf(one);
    }

    method CountRule(delta: int)
      requires Valid() && 0 <= rules + delta
      modifies this`rules
      ensures Valid() && repr == old(repr) && rules == old(rules) + delta
      ensures Model() == Node(prefix, rules, old(ModelOf(zero)), old(ModelOf(one)))
    {
      rules := rules + delta;
    }

    /** Stores `child` in an edge; what the edge held before may already have been changed. */
    method SetEdge(bit: bool, child: TrieNode?)
      requires ValidOf(child) && ValidOf(Edge(!bit))
      requires this !in ReprOf(child) && this !in ReprOf(Edge(!bit)) && ReprOf(child) !! ReprOf(Edge(!bit))
      modifies this`zero, this`one, this`repr
      ensures Valid() && repr == {this} + ReprOf(child) + old(ReprOf(Edge(!bit)))
      ensures
        var other := old(ModelOf(Edge(!bit)));
        Model() == if bit then Node(prefix, rules, other, old(ModelOf(child)))
                   else Node(prefix, rules, old(ModelOf(child)), other)
    {
      if bit { one := child; } else { zero := child; }
      repr := {this} + ReprOf(zero) + ReprOf(one);
    }
  }

  ghost predicate ValidOf(node: TrieNode?)
    reads node, ReprOf(node)
  {
    node != null ==> node.Valid()
  }

  ghost function ReprOf(node: TrieNode?): set<TrieNode>
    reads node
  {
    if node == null then {} else node.repr
  }

  ghost function ModelOf(node: TrieNode?): Trie
    reads node, ReprOf(node)
    requires ValidOf(node)
  {
    if node == null then Nil else node.Model()
  }

  method CreateBranch(p: Bits, rules: nat) returns (node: TrieNode)
    ensures node.Valid() && fresh(node.repr)
    ensures node.Model() == Branch(p, rules)
    decreases |p|
  {
    if |p| <= TRIE_PREFIX_BITS {
      node := new TrieNode(p, rules, null, null);
    } else {
      var subnode := CreateBranch(p[TRIE_PREFIX_BITS..], rules);
      if p[TRIE_PREFIX_BITS] {
        node := new TrieNode(p[..TRIE_PREFIX_BITS], 0, null, subnode);
      } else {
        node := new TrieNode(p[..TRIE_PREFIX_BITS], 0, subnode, null);
      }
    }
  }

  method SplitNode(node: TrieNode, p: Bits, e: nat) returns (parent: TrieNode)
    requires node.Valid() && e < |node.prefix| && e <= |p|
    ensures parent.Valid() && fresh(parent.repr - node.repr)
    ensures parent.Model() == Split(node.Model(), p, e)
  {
    var branch: TrieNode? := null;
    if e < |p| {
      branch := CreateBranch(p[e..], 1);
    }
    parent := NewParent(node, p[..e], if e == |p| then 1 else 0, branch);
  }

  /** A node with the bits `head` above a copy of `node` that has lost as many bits. */
  method NewParent(node: TrieNode, head: Bits, rules: nat, branch: TrieNode?) returns (parent: TrieNode)
    requires node.Valid() && |head| < |node.prefix|
    requires ValidOf(branch) && ReprOf(branch) !! node.repr
    ensures parent.Valid() && fresh(parent.repr - node.repr - ReprOf(branch))
    ensures
      var lower := Node(node.prefix[|head|..], node.rules, ModelOf(node.zero), ModelOf(node.one));
      parent.Model() == if node.prefix[|head|] then Node(head, rules, ModelOf(branch), lower)
                        else Node(head, rules, lower, ModelOf(branch))
  {
    var lower := CutNode(node, |head|);
    if node.prefix[|head|] {
      parent := new TrieNode(head, rules, branch, lower);
    } else {
      parent := new TrieNode(head, rules, lower, branch);
    }
  }

  /** A copy of `node` without its first `n` bits. */
  method CutNode(node: TrieNode, n: nat) returns (lower: TrieNode)
    requires node.Valid() && n <= |node.prefix|
    ensures lower.Valid() && fresh(lower) && lower.repr <= {lower} + node.repr
    ensures lower.Model() == Node(node.prefix[n..], node.rules, ModelOf(node.zero), ModelOf(node.one))
  {
    lower := new TrieNode(node.prefix[n..], node.rules, node.zero, node.one);
  }

  /** Inserts `p` below the edge that holds `node`; the caller stores the result in that edge. */
  method InsertPrefix(node: TrieNode?, p: Bits) returns (top: TrieNode)
    requires ValidOf(node)
    modifies ReprOf(node)
    ensures top.Valid() && fresh(top.repr - old(ReprOf(node)))
    ensures top.Model() == Insert(old(ModelOf(node)), p)
    decreases ReprOf(node)
  {
    if node == null {
      top := CreateBranch(p, 1);
    } else {
      var e := CommonPrefix(node.prefix, p);
      if e < |node.prefix| {
        top := SplitNode(node, p, e);
      } else if e == |p| {
        node.CountRule(1);
        top := node;
      } else {
        ghost var sibling := node.Edge(!p[e]);
        assert ReprOf(node.Edge(p[e])) !! ReprOf(sibling) && ValidOf(sibling);
        var child := InsertPrefix(node.Edge(p[e]), p[e..]);
        assert ValidOf(sibling);
        node.SetEdge(p[e], child);
        top := node;
      }
    }
  }

  /** One step of pruning; the caller stores the result in the edge that held `node`. */
  method PruneNode(node: TrieNode) returns (top: TrieNode?)
    requires node.Valid()
    ensures ValidOf(top) && fresh(ReprOf(top) - node.repr)
    ensures ModelOf(top) == Prune(node.Model())
  {
    if node.rules > 0 || (node.zero != null && node.one != null) {
      return node;
    }
    var next := if node.zero != null then node.zero else node.one;
    if next == null {
      top := null;
    } else if |node.prefix| + |next.prefix| > TRIE_PREFIX_BITS {
      top := node;
    } else {
      top := new TrieNode(node.prefix + next.prefix, next.rules, next.zero, next.one);
    }
  }

  /** Removes `p` below the edge that holds `node`; the caller stores the result in that edge. */
  method RemovePrefix(node: TrieNode?, p: Bits) returns (top: TrieNode?)
    requires ValidOf(node)
    modifies ReprOf(node)
    ensures ValidOf(top) && fresh(ReprOf(top) - old(ReprOf(node)))
    ensures ModelOf(top) == Remove(old(ModelOf(node)), p)
    decreases ReprOf(node), 1
  {
    top := node;
    if node != null {
      var e := CommonPrefix(node.prefix, p);
      CommonPrefixWhole(node.prefix, p);
      if e < |node.prefix| {
      } else if e == |p| {
        if node.rules > 0 {
          node.CountRule(-1);
          top := PruneNode(node);
        }
      } else {
        top := RemoveBelow(node, p, e);
      }
    }
  }

  method RemoveBelow(node: TrieNode, p: Bits, e: nat) returns (top: TrieNode?)
    requires node.Valid() && e == |node.prefix| < |p| && node.prefix <= p
    modifies node.repr
    ensures ValidOf(top) && fresh(ReprOf(top) - old(node.repr))
    ensures ModelOf(top) == Remove(old(node.Model()), p)
    decreases node.repr, 0
  {
    hide Remove;
    ghost var was := node.Model();
    RemoveStep(was, p);
    var child := node.Edge(p[e]);
    ghost var sibling := node.Edge(!p[e]);
    assert ReprOf(child) !! ReprOf(sibling) && ValidOf(sibling);
    var child' := RemovePrefix(child, p[e..]);
    assert ValidOf(sibling);
    node.SetEdge(p[e], child');
    assert fresh(node.repr - old(node.repr));
    assert node.Model() == was.WithChild(p[e], Remove(was.Child(p[e]), p[e..]));
    if child != null && child' == null {
      top := PruneNode(node);
    } else {
      top := node;
    }
  }

  /** Walks down the tree over the bits of `v`, leaving the tree alone. */
  method LookupValue(root: TrieNode?, v: Bits) returns (bits: nat, plens: set<nat>)
    requires ValidOf(root)
    ensures Found(bits, plens) == Lookup(ModelOf(root), v)
  {
    hide Walk, Onward;
    var node, prev: TrieNode? := root, null;
    var matchLen := 0;
    ghost var ends := true;
    OnwardStart(ModelOf(root), v);
    plens := {};
    while node != null
      invariant matchLen <= |v|
      invariant ValidOf(node)
      invariant ends == (prev == null || (prev.zero == null && prev.one == null))
      invariant Lookup(ModelOf(root), v) == Onward(ModelOf(node), ends, v[matchLen..], matchLen, plens)
      decreases ReprOf(node)
    {
      var eqbits := CommonPrefix(node.prefix, v[matchLen..]);
      CommonPrefixWhole(node.prefix, v[matchLen..]);
      OnwardStep(node.Model(), ends, v[matchLen..], matchLen, plens);
      if eqbits < |node.prefix| {
        return matchLen + eqbits + 1, plens;
      }
      if node.rules > 0 {
        plens := plens + {matchLen + eqbits};
      }
      if matchLen + eqbits >= |v| {
        return |v|, plens;
      }
      assert v[matchLen..][eqbits..] == v[matchLen + eqbits..];
      matchLen := matchLen + eqbits;
      ends := node.Model().IsLeaf();
      prev, node := node, node.Edge(v[matchLen]);
    }
    OnwardEnd(ends, v[matchLen..], matchLen, plens);
    bits := if prev == null || (prev.zero == null && prev.one == null) then matchLen else matchLen + 1;
  }

  /** The answer of a walk that has already collected `plens`. */
  ghost function Onward(t: Trie, ends: bool, rest: Bits, ofs: nat, plens: set<nat>): Found {
    var r := Walk(t, ends, rest, ofs);
    Found(r.bits, plens + r.plens)
  }

  lemma OnwardStart(t: Trie, v: Bits)
    ensures Lookup(t, v) == Onward(t, true, v[0..], 0, {})
  {
    assert v[0..] == v;
  }

  lemma OnwardEnd(ends: bool, rest: Bits, ofs: nat, plens: set<nat>)
    ensures Onward(Nil, ends, rest, ofs, plens) == Found(if ends then ofs else ofs + 1, plens)
  {
  }

  lemma OnwardStep(t: Trie, ends: bool, rest: Bits, ofs: nat, plens: set<nat>)
    requires t.Node?
    ensures
      var e := |t.prefix|;
      var plens' := if t.rules > 0 then plens + {ofs + e} else plens;
      var r := Onward(t, ends, rest, ofs, plens);
      if !(t.prefix <= rest) then r == Found(ofs + CommonPrefix(t.prefix, rest) + 1, plens)
      else if e == |rest| then r == Found(ofs + e, plens')
      else r == Onward(t.Child(rest[e]), t.IsLeaf(), rest[e..], ofs + e, plens')
  {
    if t.prefix <= rest && |t.prefix| < |rest| {
      WalkStep(t, ends, rest, ofs);
    }
  }

  /** A trie over a field of `width` bits, as the classifier holds it: one pointer to the root. */
  class LinkedTrie {
    const width: nat
    var root: TrieNode?

    ghost predicate Valid()
      reads this, root, ReprOf(root)
    {
      ValidOf(root) && WellFormed(ModelOf(root)) && Depth(ModelOf(root)) <= width
    }

    /** The number of rules stored under the prefix `p`. */
    ghost function Stored(p: Bits): nat
      reads this, root, ReprOf(root)
      requires Valid()
    {
      Count(ModelOf(root), p)
    }

    constructor (width: nat)
      ensures Valid() && root == null && this.width == width
      ensures forall q :: Stored(q) == 0
    {
      this.width, root := width, null;
    }

    method Insert(p: Bits)
      requires Valid() && 0 < |p| <= width
      modifies this, ReprOf(root)
      ensures Valid() && root != null
      ensures forall q :: Stored(q) == old(Stored(q)) + if p == q then 1 else 0
    {
      hide PrefixTrie.Insert, Count;
      ghost var was := ModelOf(root);
      root := InsertPrefix(root, p);
      InsertShape(was, p);
      forall q { InsertStores(was, p, q); }
    }

    method Remove(p: Bits)
      requires Valid()
      modifies this, ReprOf(root)
      ensures Valid()
      ensures forall q :: Stored(q) == old(Stored(q)) - if p == q && old(Stored(p)) > 0 then 1 else 0
      ensures root == null <==> forall q :: Stored(q) == 0
    {
      hide PrefixTrie.Remove;
      ghost var was := ModelOf(root);
      root := RemovePrefix(root, p);
      RemoveShape(was, p);
      if Count(was, p) > 0 {
        forall q { RemoveStores(was, p, q); }
      } else {
        RemoveAbsent(was, p);
      }
      if root != null {
        assert Stored(SomePrefix(root.Model())) > 0;
      }
    }

    method Lookup(v: Bits) returns (bits: nat, plens: set<nat>)
      requires Valid() && |v| == width
      ensures bits <= width
      ensures forall len :: 0 <= len <= width ==> (len in plens <==> Stored(v[..len]) > 0)
      ensures forall w: Bits, len :: |w| == width && w[..bits] == v[..bits] && 0 <= len <= width ==>
                (len in plens <==> Stored(w[..len]) > 0)
      ensures bits > 0 ==>
                exists w: Bits :: |w| == width && w[..bits - 1] == v[..bits - 1] && ToldApart(ModelOf(root), v, w)
    {
      bits, plens := LookupValue(root, v);
      ghost var t := ModelOf(root);
      LookupExact(t, v, 0);
      forall w: Bits, len | |w| == width && w[..bits] == v[..bits] && 0 <= len <= width
        ensures len in plens <==> Stored(w[..len]) > 0
      {
        LookupStable(t, v, w);
        LookupExact(t, w, len);
      }
      LookupTight(t, v);
    }
  }
}
