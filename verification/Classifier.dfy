/** The classifier as an object: subtables in order of their highest priority, and the prefix tries that
    all of them share. */
module Classifiers {
  import opened Bits
  import opened ClassifierLookup
  import opened Flows
  import opened LookupMeaning
  import opened PrefixTrie
  import opened RuleSets
  import opened Subtables
  import opened SubtableUpdate
  import opened Sums
  import opened Wrappers

  // ----- what the classifier keeps

  ghost function EntriesOf(): Subtable -> multiset<Entry> {
    (st: Subtable) => SubEntries(st)
  }

  /** All the rules, with what they match. */
  ghost function Rules(subs: seq<Subtable>): multiset<Entry> {
    Sum(subs, EntriesOf())
  }

  /** What a subtable contributes to the `j`-th trie. */
  ghost function PrefixesAt(cfg: Config, j: nat): Subtable -> multiset<Bits>
    requires j < |cfg.fields|
  {
    (st: Subtable) =>
      if j < |st.triePlen| then PrefixSet(st.heads, cfg.fields[j].ofs, st.triePlen[j]) else multiset{}
  }

  /** The subtables are in order, each for another mask, and each keeps its own indices. */
  ghost predicate VectorOk(cfg: Config, subs: seq<Subtable>)
    requires ValidConfig(cfg)
  {
    && (forall k :: 0 <= k < |subs| ==> SubtableOk(cfg, subs[k]) && MaxOk(subs[k]))
    && (forall j, k :: 0 <= j < k < |subs| ==> subs[j].maxPriority >= subs[k].maxPriority && subs[j].mask != subs[k].mask)
  }

  /** Each trie holds exactly the prefixes of the heads that match its field by prefix. */
  ghost predicate TriesOk(cfg: Config, subs: seq<Subtable>, tries: seq<Trie>) {
    && |tries| == |cfg.fields|
    && forall j :: 0 <= j < |tries| ==> Holds(tries[j], Sum(subs, PrefixesAt(cfg, j)), cfg.fields[j].width)
  }

  // ----- the vector of subtables

  predicate Fits(subs: seq<Subtable>, i: nat, st: Subtable)
    requires i <= |subs|
  {
    && (forall k :: 0 <= k < i ==> subs[k].maxPriority >= st.maxPriority)
    && (forall k :: i <= k < |subs| ==> st.maxPriority >= subs[k].maxPriority)
    && (forall k :: 0 <= k < |subs| ==> subs[k].mask != st.mask)
  }

  lemma VectorInsert(cfg: Config, base: seq<Subtable>, i: nat, st: Subtable)
    requires ValidConfig(cfg) && VectorOk(cfg, base) && SubtableOk(cfg, st) && MaxOk(st)
    requires i <= |base| && Fits(base, i, st)
    ensures VectorOk(cfg, base[..i] + [st] + base[i..])
  {
    hide SubtableOk, MaxOk;
  }

  lemma VectorWithout(cfg: Config, subs: seq<Subtable>, k: nat)
    requires ValidConfig(cfg) && VectorOk(cfg, subs) && k < |subs|
    ensures
      var base := subs[..k] + subs[k + 1..];
      && VectorOk(cfg, base) && Fits(base, k, subs[k])
      && subs == base[..k] + [subs[k]] + base[k..]
  {
    hide SubtableOk, MaxOk;
    var base := subs[..k] + subs[k + 1..];
    assert base[..k] == subs[..k] && base[k..] == subs[k + 1..];
    forall j | 0 <= j < |base| ensures base[j] == subs[if j < k then j else j + 1] {
    }
  }

  /** Where a subtable of the given priority goes. */
  method VectorPlace(ghost cfg: Config, base: seq<Subtable>, st: Subtable) returns (i: nat)
    requires ValidConfig(cfg) && VectorOk(cfg, base) && forall k :: 0 <= k < |base| ==> base[k].mask != st.mask
    ensures i <= |base| && Fits(base, i, st)
  {
    hide SubtableOk, MaxOk;
    i := 0;
    while i < |base| && base[i].maxPriority >= st.maxPriority
      invariant 0 <= i <= |base|
      invariant forall k :: 0 <= k < i ==> base[k].maxPriority >= st.maxPriority
    {
      i := i + 1;
    }
  }

  // ----- the shared tries

  /** The tries hold what `base` and `st` contribute. */
  ghost predicate TriesFor(cfg: Config, base: seq<Subtable>, st: Subtable, tries: seq<Trie>) {
    && |tries| == |cfg.fields|
    && forall j :: 0 <= j < |tries| ==>
         Holds(tries[j], Sum(base, PrefixesAt(cfg, j)) + PrefixesAt(cfg, j)(st), cfg.fields[j].width)
  }

  lemma TriesSplit(cfg: Config, base: seq<Subtable>, i: nat, st: Subtable, tries: seq<Trie>)
    requires i <= |base|
    ensures TriesOk(cfg, base[..i] + [st] + base[i..], tries) <==> TriesFor(cfg, base, st, tries)
  {
    hide Sum, Holds;
    if |tries| == |cfg.fields| {
      forall j | 0 <= j < |tries|
        ensures Sum(base[..i] + [st] + base[i..], PrefixesAt(cfg, j)) == Sum(base, PrefixesAt(cfg, j)) + PrefixesAt(cfg, j)(st)
      {
        SumInsert(base, i, st, PrefixesAt(cfg, j));
      }
    }
  }

  lemma TriesEmpty(cfg: Config, base: seq<Subtable>, st: Subtable, tries: seq<Trie>)
    requires st.heads == []
    ensures TriesOk(cfg, base, tries) <==> TriesFor(cfg, base, st, tries)
    ensures TriesOk(cfg, base, tries) ==> |tries| == |cfg.fields|
  {
    hide Sum, Holds;
    if |tries| == |cfg.fields| {
      forall j | 0 <= j < |tries| ensures Sum(base, PrefixesAt(cfg, j)) + PrefixesAt(cfg, j)(st) == Sum(base, PrefixesAt(cfg, j)) {
        assert PrefixesAt(cfg, j)(st) == multiset{};
      }
    }
  }

  lemma TriesSame(cfg: Config, base: seq<Subtable>, st: Subtable, st': Subtable, tries: seq<Trie>)
    requires SameKeys(st, st') && SameFlows(st.heads, st'.heads) && TriesFor(cfg, base, st, tries)
    ensures TriesFor(cfg, base, st', tries)
  {
    hide Sum, Holds;
    forall j | 0 <= j < |tries| ensures PrefixesAt(cfg, j)(st') == PrefixesAt(cfg, j)(st) {
      if j < |st.triePlen| {
        var ofs, len := cfg.fields[j].ofs, st.triePlen[j];
        assert Prefixes(st.heads, ofs, len) == Prefixes(st'.heads, ofs, len);
      }
    }
  }

  /** The `j`-th trie once the prefix of `flow` has been put in, or taken out, as the mask has one. */
  function TrieWith(cfg: Config, st: Subtable, flow: Bits, tries: seq<Trie>, j: nat): Trie
    requires j < |tries| == |cfg.fields| == |st.triePlen|
  {
    if st.triePlen[j] > 0 then Insert(tries[j], PrefixOf(flow, cfg.fields[j].ofs, st.triePlen[j])) else tries[j]
  }

  function TrieWithout(cfg: Config, st: Subtable, flow: Bits, tries: seq<Trie>, j: nat): Trie
    requires j < |tries| == |cfg.fields| == |st.triePlen|
  {
    if st.triePlen[j] > 0 then Remove(tries[j], PrefixOf(flow, cfg.fields[j].ofs, st.triePlen[j])) else tries[j]
  }

  method UpdateTries(cfg: Config, st: Subtable, flow: Bits, tries: seq<Trie>, add: bool) returns (tries': seq<Trie>)
    requires |tries| == |cfg.fields| == |st.triePlen|
    ensures |tries'| == |tries|
    ensures forall j :: 0 <= j < |tries| ==>
      tries'[j] == if add then TrieWith(cfg, st, flow, tries, j) else TrieWithout(cfg, st, flow, tries, j)
  {
    tries' := tries;
    for i := 0 to |cfg.fields|
      invariant |tries'| == |tries|
      invariant forall j :: i <= j < |tries| ==> tries'[j] == tries[j]
      invariant forall j :: 0 <= j < i ==>
        tries'[j] == if add then TrieWith(cfg, st, flow, tries, j) else TrieWithout(cfg, st, flow, tries, j)
    {
      if st.triePlen[i] > 0 {
        var prefix := PrefixOf(flow, cfg.fields[i].ofs, st.triePlen[i]);
        tries' := tries'[i := if add then Insert(tries'[i], prefix) else Remove(tries'[i], prefix)];
      }
    }
  }

  lemma PlenFits(cfg: Config, st: Subtable, j: nat)
    requires ValidConfig(cfg) && IsFlow(cfg, st.mask) && PlensOk(cfg, st) && j < |cfg.fields|
    ensures st.triePlen[j] <= cfg.fields[j].width
  {
  }

  lemma TriesAdd(cfg: Config, base: seq<Subtable>, st: Subtable, st': Subtable, h: Head, tries: seq<Trie>, tries': seq<Trie>)
    requires ValidConfig(cfg) && IsFlow(cfg, st.mask) && PlensOk(cfg, st) && TriesFor(cfg, base, st, tries)
    requires SameKeys(st, st') && st'.heads == st.heads + [h]
    requires |tries'| == |tries| && forall j :: 0 <= j < |tries| ==> tries'[j] == TrieWith(cfg, st, h.flow, tries, j)
    ensures TriesFor(cfg, base, st', tries')
  {
    hide Sum, Holds, Insert, PlensOk, PrefixSet, Prefixes;
    forall j | 0 <= j < |tries|
      ensures Holds(tries'[j], Sum(base, PrefixesAt(cfg, j)) + PrefixesAt(cfg, j)(st'), cfg.fields[j].width)
    {
      TrieAdds(cfg, Sum(base, PrefixesAt(cfg, j)), st, st', h, tries, j);
    }
  }

  lemma TrieAdds(cfg: Config, m0: multiset<Bits>, st: Subtable, st': Subtable, h: Head, tries: seq<Trie>, j: nat)
    requires ValidConfig(cfg) && IsFlow(cfg, st.mask) && PlensOk(cfg, st) && |tries| == |cfg.fields| && j < |tries|
    requires SameKeys(st, st') && st'.heads == st.heads + [h]
    requires Holds(tries[j], m0 + PrefixesAt(cfg, j)(st), cfg.fields[j].width)
    ensures Holds(TrieWith(cfg, st, h.flow, tries, j), m0 + PrefixesAt(cfg, j)(st'), cfg.fields[j].width)
  {
    hide Holds, Insert, PrefixSet, PrefixLength;
    var ofs, len := cfg.fields[j].ofs, st.triePlen[j];
    PrefixSetWith(st.heads, h, ofs, len);
    if len > 0 {
      PlenFits(cfg, st, j);
      var m, p := m0 + PrefixesAt(cfg, j)(st), PrefixOf(h.flow, ofs, len);
      assert m + multiset{p} == m0 + PrefixesAt(cfg, j)(st');
      TrieGains(tries[j], m, p, cfg.fields[j].width);
    } else {
      assert PrefixesAt(cfg, j)(st') == PrefixesAt(cfg, j)(st);
    }
  }

  lemma PrefixSetWith(heads: seq<Head>, h: Head, ofs: nat, len: nat)
    ensures PrefixSet(heads + [h], ofs, len) ==
      if len > 0 then PrefixSet(heads, ofs, len) + multiset{PrefixOf(h.flow, ofs, len)} else PrefixSet(heads, ofs, len)
  {
    assert Prefixes(heads + [h], ofs, len) == Prefixes(heads, ofs, len) + [PrefixOf(h.flow, ofs, len)];
  }

  lemma PrefixSetWithout(heads: seq<Head>, k: nat, ofs: nat, len: nat)
    requires k < |heads|
    ensures
      var p := PrefixOf(heads[k].flow, ofs, len);
      && (len > 0 ==> p in PrefixSet(heads, ofs, len))
      && PrefixSet(heads[..k] + heads[k + 1..], ofs, len) == if len > 0 then PrefixSet(heads, ofs, len) - multiset{p} else multiset{}
    ensures len == 0 ==> PrefixSet(heads, ofs, len) == multiset{}
  {
    var ps := Prefixes(heads, ofs, len);
    assert Prefixes(heads[..k] + heads[k + 1..], ofs, len) == ps[..k] + ps[k + 1..];
    MultisetWithout(ps, k);
  }

  lemma TriesDrop(cfg: Config, base: seq<Subtable>, st: Subtable, st': Subtable, k: nat, tries: seq<Trie>, tries': seq<Trie>)
    requires |st.triePlen| == |cfg.fields| && TriesFor(cfg, base, st, tries)
    requires SameKeys(st, st') && k < |st.heads| && st'.heads == st.heads[..k] + st.heads[k + 1..]
    requires |tries'| == |tries| && forall j :: 0 <= j < |tries| ==> tries'[j] == TrieWithout(cfg, st, st.heads[k].flow, tries, j)
    ensures TriesFor(cfg, base, st', tries')
  {
    hide Sum, Holds, Remove, PrefixSet, PrefixOf;
    forall j | 0 <= j < |tries|
      ensures Holds(tries'[j], Sum(base, PrefixesAt(cfg, j)) + PrefixesAt(cfg, j)(st'), cfg.fields[j].width)
    {
      var ofs, len := cfg.fields[j].ofs, st.triePlen[j];
      if len > 0 {
        var m, p := Sum(base, PrefixesAt(cfg, j)) + PrefixesAt(cfg, j)(st), PrefixOf(st.heads[k].flow, ofs, len);
        PrefixSetWithout(st.heads, k, ofs, len);
        assert m - multiset{p} == Sum(base, PrefixesAt(cfg, j)) + PrefixesAt(cfg, j)(st');
        TrieLoses(tries[j], m, p, cfg.fields[j].width);
      } else {
        PrefixSetWithout(st.heads, k, ofs, len);
        assert PrefixesAt(cfg, j)(st') == PrefixesAt(cfg, j)(st);
      }
    }
  }

  // ----- what a lookup may rely on

  lemma Contributes<S, T>(s: seq<S>, k: nat, f: S -> multiset<T>)
    requires k < |s|
    ensures f(s[k]) <= Sum(s, f)
  {
    hide Sum;
    SumSplit(s, k, f);
  }

  lemma HeadInTrie(cfg: Config, subs: seq<Subtable>, tries: seq<Trie>, k: nat, j: nat, i: nat)
    requires ValidConfig(cfg) && TriesOk(cfg, subs, tries) && k < |subs| && SubtableOk(cfg, subs[k])
    requires j < |tries| && i < |subs[k].heads| && subs[k].triePlen[j] > 0
    ensures Count(tries[j], FieldBits(cfg, j, subs[k].heads[i].flow)[..subs[k].triePlen[j]]) > 0
  {
    hide Sum, Count, WellFormed, Depth, PrefixSet, IndicesOk, PortsOk, StagesOk;
    var st := subs[k];
    var ofs, len, flow := cfg.fields[j].ofs, st.triePlen[j], st.heads[i].flow;
    PlenFits(cfg, st, j);
    PrefixSetWithout(st.heads, i, ofs, len);
    Contributes(subs, k, PrefixesAt(cfg, j));
    assert HeadOk(st.mask, st.heads[i]);
    assert FieldBits(cfg, j, flow)[..len] == PrefixOf(flow, ofs, len);
  }

  lemma TriesCoverAll(cfg: Config, subs: seq<Subtable>, tries: seq<Trie>, k: nat)
    requires ValidConfig(cfg) && TriesOk(cfg, subs, tries) && k < |subs| && SubtableOk(cfg, subs[k])
    ensures TriesCover(cfg, tries, subs[k])
  {
    hide Sum, Count, IndicesOk, PortsOk, StagesOk;
    var st := subs[k];
    forall j, i | 0 <= j < |tries| && 0 <= i < |st.heads| && st.triePlen[j] > 0
      ensures Count(tries[j], FieldBits(cfg, j, st.heads[i].flow)[..st.triePlen[j]]) > 0
    {
      HeadInTrie(cfg, subs, tries, k, j, i);
    }
  }

  /** The invariant gives a lookup its indices and its order. */
  lemma ReadyForLookup(cfg: Config, subs: seq<Subtable>, tries: seq<Trie>)
    requires ValidConfig(cfg) && VectorOk(cfg, subs) && TriesOk(cfg, subs, tries)
    ensures Indexed(cfg, subs, tries) && Ordered(subs)
  {
    hide TriesCover, IndicesOk, PortsOk, PlensOk, StagesOk, TopCount;
    forall k | 0 <= k < |subs| ensures TriesCover(cfg, tries, subs[k]) {
      TriesCoverAll(cfg, subs, tries, k);
    }
    forall k | 0 <= k < |subs| ensures HeadsOk(subs[k].mask, subs[k].heads) && Bounded(subs[k]) {
      assert SubtableOk(cfg, subs[k]) && MaxOk(subs[k]);
    }
  }

  // ----- rules as entries

  lemma {:induction false} InSum<S, T>(s: seq<S>, f: S -> multiset<T>, x: T) returns (k: nat)
    requires x in Sum(s, f)
    ensures k < |s| && x in f(s[k])
    decreases |s|
  {
    var n := |s| - 1;
    if x in f(s[n]) {
      k := n;
    } else {
      k := InSum(s[..n], f, x);
    }
  }

  /** A rule found by walking the lists is a rule of the classifier, and the other way round. */
  lemma HitIsRule(subs: seq<Subtable>, f: Bits, version: nat, m: Match)
    requires SameSize(subs, f) && Hit(subs, f, version, m)
    ensures exists e :: e in Rules(subs) && Matches(e, f, version) && e.rule == m
  {
    hide Sum;
    var k, j :| 0 <= k < |subs| && 0 <= j < |subs[k].heads| && InHead(subs[k], j, f, version, m);
    var st, h := subs[k], subs[k].heads[j];
    var i :| 0 <= i < |h.list| && h.list[i] == m;
    var e := Entry(st.mask, h.flow, m);
    Contributes(h.list, i, EntryOf(st.mask, h.flow));
    Contributes(st.heads, j, HeadEntries(st.mask));
    Contributes(subs, k, EntriesOf());
    assert e in EntryOf(st.mask, h.flow)(m);
    assert e in HeadEntries(st.mask)(h);
    assert e in EntriesOf()(st);
    assert Matches(e, f, version);
  }

  lemma RuleIsHit(subs: seq<Subtable>, f: Bits, version: nat, e: Entry)
    requires SameSize(subs, f) && e in Rules(subs) && Matches(e, f, version)
    ensures Hit(subs, f, version, e.rule)
  {
    var k := InSum(subs, EntriesOf(), e);
    var st := subs[k];
    var j := InSum(st.heads, HeadEntries(st.mask), e);
    var i := InSum(st.heads[j].list, EntryOf(st.mask, st.heads[j].flow), e);
    assert InHead(st, j, f, version, e.rule);
  }

  /** A rule that is twice in a list is twice among the rules. */
  lemma Twice(subs: seq<Subtable>, k: nat, j: nat, a: nat, b: nat)
    requires k < |subs| && j < |subs[k].heads| && a < b < |subs[k].heads[j].list|
    requires subs[k].heads[j].list[a] == subs[k].heads[j].list[b]
    ensures Rules(subs)[Entry(subs[k].mask, subs[k].heads[j].flow, subs[k].heads[j].list[a])] >= 2
  {
    hide Sum;
    var st, h := subs[k], subs[k].heads[j];
    var e, f := Entry(st.mask, h.flow, h.list[a]), EntryOf(st.mask, h.flow);
    var rest := h.list[..b] + h.list[b + 1..];
    SumSplit(h.list, b, f);
    assert rest[a] == h.list[a] && f(rest[a]) == multiset{e} && f(h.list[b]) == multiset{e};
    Contributes(rest, a, f);
    Contributes(st.heads, j, HeadEntries(st.mask));
    Contributes(subs, k, EntriesOf());
    assert HeadEntries(st.mask)(h) == Sum(h.list, f) && EntriesOf()(st) == Sum(st.heads, HeadEntries(st.mask));
  }

  lemma InRules(subs: seq<Subtable>, k: nat, j: nat, i: nat)
    requires k < |subs| && j < |subs[k].heads| && i < |subs[k].heads[j].list|
    ensures Entry(subs[k].mask, subs[k].heads[j].flow, subs[k].heads[j].list[i]) in Rules(subs)
  {
    hide Sum;
    var st, h := subs[k], subs[k].heads[j];
    Contributes(h.list, i, EntryOf(st.mask, h.flow));
    Contributes(st.heads, j, HeadEntries(st.mask));
    Contributes(subs, k, EntriesOf());
    assert Entry(st.mask, h.flow, h.list[i]) in EntryOf(st.mask, h.flow)(h.list[i]);
    assert HeadEntries(st.mask)(h) == Sum(h.list, EntryOf(st.mask, h.flow));
    assert EntriesOf()(st) == Sum(st.heads, HeadEntries(st.mask));
  }

  /** What a lookup with conjunctions relies on: rules with the same match and priority take turns. */
  lemma RulesDistinct(cfg: Config, subs: seq<Subtable>, version: nat)
    requires ValidConfig(cfg) && VectorOk(cfg, subs) && OneAtATime(Rules(subs))
    ensures AllDistinct(subs, version)
  {
    hide Rules, IndicesOk, PortsOk, PlensOk, StagesOk, MaxOk;
    forall k, j, a, b | 0 <= k < |subs| && 0 <= j < |subs[k].heads| && 0 <= a < b < |subs[k].heads[j].list|
      && subs[k].heads[j].list[a].VisibleIn(version) && subs[k].heads[j].list[b].VisibleIn(version)
      ensures subs[k].heads[j].list[a].priority > subs[k].heads[j].list[b].priority
    {
      var list := subs[k].heads[j].list;
      assert SubtableOk(cfg, subs[k]) && HeadOk(subs[k].mask, subs[k].heads[j]);
      InRules(subs, k, j, a);
      InRules(subs, k, j, b);
      if list[a] == list[b] { Twice(subs, k, j, a, b); }
    }
  }

  // ----- the object

  /** The subtable that `insert_subtable` sets up for a mask, before it has any rule. */
  function EmptySubtable(cfg: Config, mask: Bits, cuts: seq<nat>): Subtable
    requires ValidConfig(cfg) && IsFlow(cfg, mask)
  {
    Subtable(mask, cuts,
             seq(|cfg.fields|, j requires 0 <= j < |cfg.fields| => PrefixLength(FieldBits(cfg, j, mask))),
             SignificantLength(Ports(cfg, mask)),
             [], seq(|cuts|, i => multiset{}), Nil, 0, 0)
  }

  lemma EmptySubtableOk(cfg: Config, mask: Bits, cuts: seq<nat>)
    requires ValidConfig(cfg) && IsFlow(cfg, mask) && StagesOk(cfg, mask, cuts)
    ensures SubtableOk(cfg, EmptySubtable(cfg, mask, cuts)) && SubEntries(EmptySubtable(cfg, mask, cuts)) == multiset{}
  {
    hide StagesOk;
  }

  /** The entries of the classifier with `st` apart. */
  lemma RulesSplit(base: seq<Subtable>, i: nat, st: Subtable)
    requires i <= |base|
    ensures Rules(base[..i] + [st] + base[i..]) == Rules(base) + SubEntries(st)
  {
    hide Sum;
    SumInsert(base, i, st, EntriesOf());
  }

  /** Takes the `k`-th subtable out of the vector. */
  lemma TakeOut(cfg: Config, subs: seq<Subtable>, tries: seq<Trie>, k: nat)
    requires ValidConfig(cfg) && VectorOk(cfg, subs) && TriesOk(cfg, subs, tries) && k < |subs|
    ensures
      var base, st := subs[..k] + subs[k + 1..], subs[k];
      && VectorOk(cfg, base) && SubtableOk(cfg, st) && MaxOk(st) && Fits(base, k, st)
      && TriesFor(cfg, base, st, tries) && Rules(subs) == Rules(base) + SubEntries(st)
      && |tries| == |cfg.fields| && |st.triePlen| == |cfg.fields|
  {
    assert SubtableOk(cfg, subs[k]);
    hide TriesFor, Rules, SubtableOk, MaxOk;
    VectorWithout(cfg, subs, k);
    TriesSplit(cfg, subs[..k] + subs[k + 1..], k, subs[k], tries);
    RulesSplit(subs[..k] + subs[k + 1..], k, subs[k]);
  }

  /** Puts a subtable into its place in the vector. */
  lemma PutIn(cfg: Config, base: seq<Subtable>, i: nat, st: Subtable, tries: seq<Trie>)
    requires ValidConfig(cfg) && VectorOk(cfg, base) && SubtableOk(cfg, st) && MaxOk(st)
    requires i <= |base| && Fits(base, i, st) && TriesFor(cfg, base, st, tries)
    ensures
      var subs := base[..i] + [st] + base[i..];
      VectorOk(cfg, subs) && TriesOk(cfg, subs, tries) && Rules(subs) == Rules(base) + SubEntries(st)
  {
    hide TriesOk, TriesFor, Rules, SubtableOk, MaxOk, VectorOk;
    VectorInsert(cfg, base, i, st);
    TriesSplit(cfg, base, i, st, tries);
    RulesSplit(base, i, st);
  }

  lemma MergedWhole(base: multiset<Entry>, st: Subtable, st': Subtable, flow: Bits, m: Match, displaced: Option<Match>)
    requires Added(st, st', flow, m, displaced)
    ensures Merged(base + SubEntries(st), base + SubEntries(st'), st.mask, flow, m, displaced)
    ensures |base + SubEntries(st')| == |base + SubEntries(st)| + if displaced.None? then 1 else 0
  {
    hide SubEntries;
    match displaced {
      case None =>
        assert base + SubEntries(st') == base + SubEntries(st) + multiset{Entry(st.mask, flow, m)};
      case Some(d) =>
        var gone := multiset{Entry(st.mask, flow, d)};
        assert base + SubEntries(st') + gone == base + (SubEntries(st') + gone)
            == base + SubEntries(st) + multiset{Entry(st.mask, flow, m)};
        assert |base + SubEntries(st') + gone| == |base + SubEntries(st')| + 1;
    }
  }

  /** There is already a rule with this match and priority that is not on its way out. */
  ghost predicate HasEqual(rules: multiset<Entry>, mask: Bits, flow: Bits, p: Priority) {
    exists d :: Entry(mask, flow, d) in rules && d.priority == p && !d.EventuallyInvisible()
  }

  /** The rule that the search finds is the only one that it could find. */
  lemma DisplacesIf(rules: multiset<Entry>, rules': multiset<Entry>, mask: Bits, flow: Bits, m: Match,
                    displaced: Option<Match>)
    requires OnePerMatch(rules) && Merged(rules, rules', mask, flow, m, displaced)
    requires displaced.Some? ==> displaced.value.priority == m.priority && !displaced.value.EventuallyInvisible()
    requires displaced.None? ==> !HasEqual(rules, mask, flow, m.priority)
    ensures Displaces(rules, mask, flow, m.priority, displaced)
  {
    forall d | Equal(rules, mask, flow, m.priority, d) ensures displaced == Some(d) {
      assert Entry(mask, flow, d) in rules && !d.EventuallyInvisible();
      assert Stays(Entry(mask, flow, d));
      if displaced.Some? { assert SameKey(Entry(mask, flow, d), Entry(mask, flow, displaced.value)); }
    }
  }

  /** All rules with that match and priority that are to go have gone by `version`. */
  ghost predicate GoneBy(rules: multiset<Entry>, mask: Bits, flow: Bits, priority: Priority, version: nat) {
    forall e :: e in rules && e.mask == mask && e.flow == flow && e.rule.priority == priority && !Stays(e) ==>
      e.rule.removeVersion <= version
  }

  lemma MergedStays(rules: multiset<Entry>, rules': multiset<Entry>, mask: Bits, flow: Bits, m: Match,
                    displaced: Option<Match>)
    requires Merged(rules, rules', mask, flow, m, displaced) && m.removeVersion == VERSION_NOT_REMOVED
    ensures AllStay(rules) ==> AllStay(rules')
  {
    assert forall e :: e in rules' ==> e in rules + multiset{Entry(mask, flow, m)};
  }

  /** Where a rule is. */
  lemma EntryPlace(subs: seq<Subtable>, e: Entry) returns (k: nat, j: nat, i: nat)
    requires e in Rules(subs)
    ensures k < |subs| && j < |subs[k].heads| && i < |subs[k].heads[j].list|
    ensures e == Entry(subs[k].mask, subs[k].heads[j].flow, subs[k].heads[j].list[i])
  {
    k := InSum(subs, EntriesOf(), e);
    var st := subs[k];
    j := InSum(st.heads, HeadEntries(st.mask), e);
    i := InSum(st.heads[j].list, EntryOf(st.mask, st.heads[j].flow), e);
  }

  /** An equal rule is in the subtable of its mask. */
  lemma EqualInSubtable(cfg: Config, subs: seq<Subtable>, mask: Bits, flow: Bits, p: Priority)
    requires ValidConfig(cfg) && VectorOk(cfg, subs) && HasEqual(Rules(subs), mask, flow, p)
    ensures exists k, j :: 0 <= k < |subs| && 0 <= j < |subs[k].heads| && HoldsEqual(subs[k], j, mask, flow, p)
  {
    hide Rules, VectorOk;
    var d :| Entry(mask, flow, d) in Rules(subs) && d.priority == p && !d.EventuallyInvisible();
    var k, j, i := EntryPlace(subs, Entry(mask, flow, d));
    assert HoldsEqual(subs[k], j, mask, flow, p);
  }

  predicate HoldsEqual(st: Subtable, j: nat, mask: Bits, flow: Bits, p: Priority)
    requires j < |st.heads|
  {
    st.mask == mask && st.heads[j].flow == flow && Replaceable(st.heads[j].list, p)
  }

  lemma SameMaskSamePlace(cfg: Config, subs: seq<Subtable>, i: nat, k: nat)
    requires ValidConfig(cfg) && VectorOk(cfg, subs) && i < |subs| && k < |subs| && subs[i].mask == subs[k].mask
    ensures i == k
  {
  }

  /** No rule with this match has the given id. */
  ghost predicate Lacks(rules: multiset<Entry>, mask: Bits, flow: Bits, id: nat) {
    forall e :: e in rules && e.mask == mask && e.flow == flow ==> e.rule.id != id
  }

  lemma NoSubtable(subs: seq<Subtable>, mask: Bits, flow: Bits, id: nat)
    requires forall k :: 0 <= k < |subs| ==> subs[k].mask != mask
    ensures Lacks(Rules(subs), mask, flow, id)
  {
    hide Rules;
    forall e | e in Rules(subs) ensures e.mask != mask {
      var k, j, i := EntryPlace(subs, e);
    }
  }

  lemma NotInSubtable(cfg: Config, subs: seq<Subtable>, k: nat, flow: Bits, id: nat)
    requires ValidConfig(cfg) && VectorOk(cfg, subs) && k < |subs|
    requires forall j, i :: 0 <= j < |subs[k].heads| && subs[k].heads[j].flow == flow && 0 <= i < |subs[k].heads[j].list| ==>
               subs[k].heads[j].list[i].id != id
    ensures Lacks(Rules(subs), subs[k].mask, flow, id)
  {
    hide Rules, VectorOk;
    forall e | e in Rules(subs) && e.mask == subs[k].mask && e.flow == flow ensures e.rule.id != id {
      var k', j, i := EntryPlace(subs, e);
      SameMaskSamePlace(cfg, subs, k', k);
    }
  }

  lemma LessOne(base: multiset<Entry>, rest: multiset<Entry>, all: multiset<Entry>, e: Entry)
    requires rest + multiset{e} == all
    ensures base + rest + multiset{e} == base + all && |base + rest| + 1 == |base + all|
  {
    assert base + rest + multiset{e} == base + (rest + multiset{e});
    assert |base + rest + multiset{e}| == |base + rest| + 1;
  }

  /** A subtable without rules has nothing in its ports trie, and no rules. */
  lemma NothingLeft(cfg: Config, st: Subtable)
    requires ValidConfig(cfg) && SubtableOk(cfg, st) && st.heads == []
    ensures st.portsTrie == Nil && SubEntries(st) == multiset{}
  {
    hide IndicesOk, StagesOk, PlensOk, Count, WellFormed, Depth;
    var m := PrefixSet(st.heads, cfg.ports, st.portsLen);
    assert m == multiset{};
    EmptyIffNil(st.portsTrie, m);
  }

  lemma SameSizes(cfg: Config, subs: seq<Subtable>, tries: seq<Trie>, f: Bits)
    requires Indexed(cfg, subs, tries) && IsFlow(cfg, f)
    ensures SameSize(subs, f)
  {
  }

  /** Looking up `f` gives `rule`. */
  ghost predicate Finds(cfg: Config, subs: seq<Subtable>, f: Bits, version: nat, rule: Option<Match>) {
    ValidConfig(cfg) && IsFlow(cfg, f) && SameSize(subs, f) && ClassifierLookup.Lookup(cfg, subs, f, version) == rule
  }

  /** In a classifier whose matching rules are not conjunctive, a lookup finds nothing exactly when no
      visible rule matches, and otherwise a visible matching rule of the highest priority. */
  lemma FindsBestRule(cfg: Config, subs: seq<Subtable>, tries: seq<Trie>, f: Bits, version: nat, rule: Option<Match>)
    requires ValidConfig(cfg) && VectorOk(cfg, subs) && TriesOk(cfg, subs, tries) && Finds(cfg, subs, f, version, rule)
    requires forall e :: e in Rules(subs) && Matches(e, f, version) ==> e.rule.conjs == []
    ensures rule.None? <==> forall e :: e in Rules(subs) ==> !Matches(e, f, version)
    ensures rule.Some? ==>
      && (exists e :: e in Rules(subs) && Matches(e, f, version) && e.rule == rule.value)
      && (forall e :: e in Rules(subs) && Matches(e, f, version) ==> e.rule.priority <= rule.value.priority)
  {
    hide VectorOk, TriesOk, Rules, Indexed, Ordered, Hit, ClassifierLookup.Lookup, Matches;
    ReadyForLookup(cfg, subs, tries);
    forall m | Hit(subs, f, version, m) ensures m.conjs == [] {
      HitIsRule(subs, f, version, m);
    }
    LookupIsBest(cfg, subs, f, version);
    forall e | e in Rules(subs) && Matches(e, f, version)
      ensures rule.Some? && e.rule.priority <= rule.value.priority
    {
      RuleIsHit(subs, f, version, e);
    }
    if rule.Some? { HitIsRule(subs, f, version, rule.value); }
  }

  class Classifier {
    const cfg: Config
    var subtables: seq<Subtable>
    var tries: seq<Trie>
    var nRules: nat

    ghost predicate Valid()
      reads this
    {
      && ValidConfig(cfg)
      && VectorOk(cfg, subtables)
      && TriesOk(cfg, subtables, tries)
      && nRules == |Rules(subtables)|
      && OnePerMatch(Rules(subtables))
    }

    constructor (cfg: Config)
      requires ValidConfig(cfg)
      ensures Valid() && this.cfg == cfg && Rules(subtables) == multiset{}
    {
      this.cfg := cfg;
      subtables, nRules := [], 0;
      tries := seq(|cfg.fields|, j => Nil);
    }

    method FindSubtable(mask: Bits) returns (k: Option<nat>)
      ensures k.Some? ==> k.value < |subtables| && subtables[k.value].mask == mask
      ensures k.None? ==> forall i :: 0 <= i < |subtables| ==> subtables[i].mask != mask
    {
      for i := 0 to |subtables|
        invariant forall j :: 0 <= j < i ==> subtables[j].mask != mask
      {
        if subtables[i].mask == mask {
          return Some(i);
        }
      }
      k := None;
    }

    method ReplaceInNew(mask: Bits, flow: Bits, m: Match)
      requires Valid() && IsFlow(cfg, mask) && IsFlow(cfg, flow) && And(flow, mask) == flow
      requires forall k :: 0 <= k < |subtables| ==> subtables[k].mask != mask
      requires m.removeVersion == VERSION_NOT_REMOVED
      modifies this
      ensures Valid() && Merged(old(Rules(subtables)), Rules(subtables), mask, flow, m, None)
      ensures Displaces(old(Rules(subtables)), mask, flow, m.priority, None)
    {
      hide TriesOk, TriesFor, Rules, Sum, IndicesOk, PortsOk, StagesOk, MaxOk, VectorOk, Added, SubEntries, OnePerMatch,
        Displaces, Merged, MaxExact;
      var cuts := InitStages(cfg, mask);
      EmptySubtableOk(cfg, mask, cuts);
      var empty := EmptySubtable(cfg, mask, cuts);
      TriesEmpty(cfg, subtables, empty, tries);
      var st, displaced, newHead := AddRule(cfg, empty, flow, m);
      ghost var was := tries;
      tries := UpdateTries(cfg, empty, flow, tries, true);
      TriesAdd(cfg, subtables, empty, st, Head(flow, [m]), was, tries);
      var i := VectorPlace(cfg, subtables, st);
      PutIn(cfg, subtables, i, st, tries);
      MergedWhole(Rules(subtables), empty, st, flow, m, None);
      assert Rules(subtables) + SubEntries(empty) == Rules(subtables);
      if HasEqual(Rules(subtables), mask, flow, m.priority) {
        EqualInSubtable(cfg, subtables, mask, flow, m.priority);
      }
      ghost var rules := Rules(subtables);
      DisplacesIf(rules, rules + SubEntries(st), mask, flow, m, None);
      subtables := subtables[..i] + [st] + subtables[i..];
      MergedOne(rules, Rules(subtables), mask, flow, m, None);
      nRules := nRules + 1;
    }

    method ReplaceInOld(k: nat, flow: Bits, m: Match) returns (displaced: Option<Match>)
      requires Valid() && k < |subtables| && IsFlow(cfg, flow) && And(flow, subtables[k].mask) == flow
      requires m.removeVersion == VERSION_NOT_REMOVED
      modifies this
      ensures Valid() && Merged(old(Rules(subtables)), Rules(subtables), old(subtables[k].mask), flow, m, displaced)
      ensures Displaces(old(Rules(subtables)), old(subtables[k].mask), flow, m.priority, displaced)
    {
      hide TriesOk, TriesFor, Rules, Sum, IndicesOk, PortsOk, StagesOk, MaxOk, VectorOk, Added, SubEntries, OnePerMatch,
        Displaces, Merged, MaxExact;
      TakeOut(cfg, subtables, tries, k);
      var base, st := subtables[..k] + subtables[k + 1..], subtables[k];
      ghost var was := tries;
      var st', newHead;
      st', displaced, newHead := AddRule(cfg, st, flow, m);
      if newHead {
        tries := UpdateTries(cfg, st, flow, tries, true);
        TriesAdd(cfg, base, st, st', Head(flow, [m]), was, tries);
      } else {
        TriesSame(cfg, base, st, st', tries);
      }
      var i := k;
      if st'.maxPriority != st.maxPriority {
        i := VectorPlace(cfg, base, st');
      }
      PutIn(cfg, base, i, st', tries);
      MergedWhole(Rules(base), st, st', flow, m, displaced);
      if HasEqual(Rules(subtables), st.mask, flow, m.priority) {
        EqualInSubtable(cfg, subtables, st.mask, flow, m.priority);
        var k', j :| 0 <= k' < |subtables| && 0 <= j < |subtables[k'].heads|
          && HoldsEqual(subtables[k'], j, st.mask, flow, m.priority);
        SameMaskSamePlace(cfg, subtables, k', k);
      }
      ghost var rules := Rules(subtables);
      DisplacesIf(rules, Rules(base) + SubEntries(st'), st.mask, flow, m, displaced);
      subtables := base[..i] + [st'] + base[i..];
      MergedOne(rules, Rules(subtables), st.mask, flow, m, displaced);
      if displaced.None? {
        nRules := nRules + 1;
      }
    }

    /** Inserts a rule.  If the classifier has a rule with the same match and priority that is not on
        its way out, the new rule takes its place and the old one is returned. */
    method Replace(mask: Bits, flow: Bits, id: nat, priority: Priority, version: nat, conjs: seq<Conjunction>)
      returns (displaced: Option<Match>)
      requires Valid() && IsFlow(cfg, mask) && IsFlow(cfg, flow) && And(flow, mask) == flow
      modifies this
      ensures Valid()
      ensures Merged(old(Rules(subtables)), Rules(subtables), mask, flow,
                     Match(id, priority, version, VERSION_NOT_REMOVED, conjs), displaced)
      ensures Displaces(old(Rules(subtables)), mask, flow, priority, displaced)
      ensures MatchesAfter(old(Rules(subtables)), Rules(subtables), mask, flow, version,
                           Match(id, priority, version, VERSION_NOT_REMOVED, conjs), displaced)
      ensures old(AllStay(Rules(subtables))) ==> AllStay(Rules(subtables))
      ensures old(OneAtATime(Rules(subtables))) && old(GoneBy(Rules(subtables), mask, flow, priority, version)) ==>
        OneAtATime(Rules(subtables))
    {
      hide VectorOk, TriesOk, Rules, OnePerMatch, Merged, Displaces, MatchesAfter, OneAtATime;
      var m := Match(id, priority, version, VERSION_NOT_REMOVED, conjs);
      ghost var rules := Rules(subtables);
      var k := FindSubtable(mask);
      if k.None? {
        ReplaceInNew(mask, flow, m);
        displaced := None;
      } else {
        displaced := ReplaceInOld(k.value, flow, m);
      }
      MergedMatches(rules, Rules(subtables), mask, flow, m, displaced);
      MergedStays(rules, Rules(subtables), mask, flow, m, displaced);
      if OneAtATime(rules) && GoneBy(rules, mask, flow, priority, version) {
        MergedApart(rules, Rules(subtables), mask, flow, m, displaced);
      }
    }

    /** The rule `id`, which matches `flow` under `mask`, is to go in `version`. */
    method MakeInvisible(mask: Bits, flow: Bits, id: nat, version: nat) returns (hidden: Option<Match>)
      requires Valid() && IsFlow(cfg, mask) && IsFlow(cfg, flow) && version < VERSION_NOT_REMOVED
      modifies this
      ensures Valid()
      ensures hidden.None? ==> Rules(subtables) == old(Rules(subtables)) && Lacks(Rules(subtables), mask, flow, id)
      ensures hidden.Some? ==>
        && hidden.value.id == id && Hidden(old(Rules(subtables)), Rules(subtables), mask, flow, hidden.value, version)
        && (old(OneAtATime(Rules(subtables))) && version <= hidden.value.removeVersion ==> OneAtATime(Rules(subtables)))
    {
      hide VectorOk, TriesOk, Rules, OnePerMatch, Hidden, OneAtATime;
      ghost var rules := Rules(subtables);
      var k := FindSubtable(mask);
      if k.None? {
        NoSubtable(subtables, mask, flow, id);
        return None;
      }
      hidden := HideIn(k.value, flow, id, version);
      if hidden.Some? && OneAtATime(rules) && version <= hidden.value.removeVersion {
        HiddenApart(rules, Rules(subtables), mask, flow, hidden.value, version);
      }
    }

    method HideIn(k: nat, flow: Bits, id: nat, version: nat) returns (hidden: Option<Match>)
      requires Valid() && k < |subtables| && IsFlow(cfg, flow) && version < VERSION_NOT_REMOVED
      modifies `subtables
      ensures Valid()
      ensures
        var mask, rules := old(subtables[k].mask), old(Rules(subtables));
        match hidden
        case None => Rules(subtables) == rules && Lacks(rules, mask, flow, id)
        case Some(m) => m.id == id && Hidden(rules, Rules(subtables), mask, flow, m, version)
    {
      hide TriesOk, TriesFor, Rules, Sum, IndicesOk, PortsOk, StagesOk, MaxOk, VectorOk, SubEntries, OnePerMatch, Added;
      TakeOut(cfg, subtables, tries, k);
      var base, st := subtables[..k] + subtables[k + 1..], subtables[k];
      var st';
      st', hidden := HideRule(cfg, st, flow, id, version);
      if hidden.None? {
        NotInSubtable(cfg, subtables, k, flow, id);
        return;
      }
      TriesSame(cfg, base, st, st', tries);
      PutIn(cfg, base, k, st', tries);
      ghost var rules := Rules(subtables);
      ghost var m' := hidden.value.(removeVersion := version);
      MergedWhole(Rules(base), st, st', flow, m', hidden);
      subtables := base[..k] + [st'] + base[k..];
      HiddenKeeps(rules, Rules(subtables), st.mask, flow, hidden.value, version);
    }

    /** The changed subtable goes back among the others, in its place if its highest priority has not changed, or
        is gone if it has no rule left. */
    method PutBack(base: seq<Subtable>, k: nat, st: Subtable, st': Subtable)
      requires ValidConfig(cfg) && VectorOk(cfg, base) && SubtableOk(cfg, st') && (st'.heads != [] ==> MaxOk(st'))
      requires k <= |base| && Fits(base, k, st) && SameKeys(st, st') && TriesFor(cfg, base, st', tries)
      modifies `subtables
      ensures VectorOk(cfg, subtables) && TriesOk(cfg, subtables, tries) && Rules(subtables) == Rules(base) + SubEntries(st')
    {
      hide TriesOk, TriesFor, Rules, Sum, IndicesOk, PortsOk, StagesOk, MaxOk, VectorOk, SubEntries;
      if st'.heads == [] {
        NothingLeft(cfg, st');
        assert st'.portsTrie == Nil;
        TriesEmpty(cfg, base, st', tries);
        subtables := base;
      } else {
        var i := k;
        if st'.maxPriority != st.maxPriority {
          i := VectorPlace(cfg, base, st');
        }
        PutIn(cfg, base, i, st', tries);
        subtables := base[..i] + [st'] + base[i..];
      }
    }

    /** Removes a rule from a subtable that is apart from the others, and from the tries what goes with it. */
    method TakeRule(ghost base: seq<Subtable>, st: Subtable, flow: Bits, id: nat)
      returns (st': Subtable, gone: Option<Match>)
      requires ValidConfig(cfg) && SubtableOk(cfg, st) && MaxOk(st) && IsFlow(cfg, flow)
      requires |tries| == |cfg.fields| && |st.triePlen| == |cfg.fields| && TriesFor(cfg, base, st, tries)
      modifies `tries
      ensures SubtableOk(cfg, st') && SameKeys(st, st') && (st'.heads != [] ==> MaxOk(st'))
      ensures TriesFor(cfg, base, st', tries)
      ensures gone.None? ==>
        && st' == st && tries == old(tries)
        && forall k, i :: 0 <= k < |st.heads| && st.heads[k].flow == flow && 0 <= i < |st.heads[k].list| ==>
             st.heads[k].list[i].id != id
      ensures gone.Some? ==>
        gone.value.id == id && SubEntries(st') + multiset{Entry(st.mask, flow, gone.value)} == SubEntries(st)
    {
      hide TriesFor, Sum, IndicesOk, PortsOk, StagesOk, MaxOk, MaxExact, SubEntries;
      ghost var was := tries;
      var dropped;
      st', gone, dropped := RemoveRule(cfg, st, flow, id);
      if dropped.Some? {
        tries := UpdateTries(cfg, st, flow, tries, false);
        TriesDrop(cfg, base, st, st', dropped.value, was, tries);
      } else {
        TriesSame(cfg, base, st, st', tries);
      }
    }

    method RemoveAt(k: nat, flow: Bits, id: nat) returns (gone: Option<Match>)
      requires Valid() && k < |subtables| && IsFlow(cfg, flow)
      modifies this
      ensures Valid()
      ensures
        var mask, rules := old(subtables[k].mask), old(Rules(subtables));
        match gone
        case None => Rules(subtables) == rules && Lacks(rules, mask, flow, id)
        case Some(m) => m.id == id && Rules(subtables) + multiset{Entry(mask, flow, m)} == rules
    {
      hide TriesOk, TriesFor, Rules, Sum, IndicesOk, PortsOk, StagesOk, MaxOk, VectorOk, SubEntries, Fits, SubtableOk,
        OnePerMatch;
      ghost var rules := Rules(subtables);
      TakeOut(cfg, subtables, tries, k);
      var base, st := subtables[..k] + subtables[k + 1..], subtables[k];
      var st';
      st', gone := TakeRule(base, st, flow, id);
      if gone.None? {
        NotInSubtable(cfg, subtables, k, flow, id);
        return;
      }
      LessOne(Rules(base), SubEntries(st'), SubEntries(st), Entry(st.mask, flow, gone.value));
      PutBack(base, k, st, st');
      RemovedKeeps(rules, Rules(subtables), Entry(st.mask, flow, gone.value));
      nRules := nRules - 1;
    }

    /** Removes the rule `id`, which matches `flow` under `mask`, if the classifier has it. */
    method Remove(mask: Bits, flow: Bits, id: nat) returns (gone: Option<Match>)
      requires Valid() && IsFlow(cfg, mask) && IsFlow(cfg, flow)
      modifies this
      ensures Valid()
      ensures
        match gone
        case None => Rules(subtables) == old(Rules(subtables)) && Lacks(Rules(subtables), mask, flow, id)
        case Some(m) => m.id == id && Rules(subtables) + multiset{Entry(mask, flow, m)} == old(Rules(subtables))
      ensures old(AllStay(Rules(subtables))) ==> AllStay(Rules(subtables))
      ensures old(OneAtATime(Rules(subtables))) ==> OneAtATime(Rules(subtables))
    {
      hide VectorOk, TriesOk, Rules, OnePerMatch, OneAtATime, AllStay;
      ghost var rules := Rules(subtables);
      var k := FindSubtable(mask);
      if k.None? {
        NoSubtable(subtables, mask, flow, id);
        gone := None;
      } else {
        gone := RemoveAt(k.value, flow, id);
        if gone.Some? { RemovedKeeps(rules, Rules(subtables), Entry(mask, flow, gone.value)); }
      }
    }

    /** Looks `f` up in `version`, and un-wildcards in `wc`, if one is given, what the answer depends on. */
    method Lookup(f: Bits, version: nat, wc: Option<Bits>) returns (rule: Option<Match>, wc': Option<Bits>)
      requires Valid() && IsFlow(cfg, f) && MaskOk(cfg, wc)
      ensures Wider(wc, wc') && Needed(subtables, wc, wc')
      ensures forall g :: Alike(f, g, wc') ==> IsFlow(cfg, g) && Finds(cfg, subtables, g, version, rule)
      ensures (forall e :: e in Rules(subtables) && Matches(e, f, version) ==> e.rule.conjs == []) && rule.Some? ==>
        NeededAbove(subtables, wc, wc', rule.value.priority)
    {
      hide VectorOk, TriesOk, Rules, Indexed, SameSize, Needed, NeededAbove, Matches, Hit, Ordered, Alike;
      ReadyForLookup(cfg, subtables, tries);
      SameSizes(cfg, subtables, tries, f);
      ghost var tried;
      rule, wc', tried := ClassifierLookup.ClassifierLookup(cfg, subtables, tries, version, f, wc);
      forall g | Alike(f, g, wc') ensures IsFlow(cfg, g) && Finds(cfg, subtables, g, version, rule) {
        assert Answered(cfg, subtables, f, wc', version, rule);
        assert |g| == |f|;
        SameSizes(cfg, subtables, tries, g);
      }
      WiderMask(cfg, f, wc, wc');
      if forall e :: e in Rules(subtables) && Matches(e, f, version) ==> e.rule.conjs == [] {
        forall m | Hit(subtables, f, version, m) ensures m.conjs == [] {
          HitIsRule(subtables, f, version, m);
        }
        MaskFromAbove(cfg, subtables, f, version, wc, wc');
      }
    }
  }
}
