/** Two classifiers that look up otherwise than the documentation of conjunctive matches says. */
module ConjunctiveExamples {
  import opened Bits
  import opened ClassifierLookup
  import opened ConjunctiveSearch
  import opened Flows
  import opened LookupMeaning
  import PrefixTrie
  import opened SoftMatches
  import opened Subtables
  import opened Wrappers

  // ----- a small configuration

  const SIZE := 256

  /** Flows of four words, with the ports in the second and the conjunction id in the third. */
  function SmallConfig(h: Hashing): (cfg: Config)
    ensures ValidConfig(cfg)
  {
    Config(4, [], h, [], 64, 128)
  }

  /** The flow, and the mask, whose bits are those from `lo` up to `hi`. */
  function Range(lo: nat, hi: nat): (r: Bits)
    ensures |r| == SIZE && forall b :: 0 <= b < SIZE ==> r[b] == (lo <= b < hi)
  {
    seq(SIZE, b requires 0 <= b < SIZE => lo <= b < hi)
  }

  /** The flow with no bit set but the last of its conjunction id, which is 1. */
  function WithId(h: Hashing): Bits {
    SetConjId(SmallConfig(h), Range(0, 0), 1)
  }

  lemma IdOne(n: nat)
    requires n > 0
    ensures IdBits(1, n)[n - 1] && forall b :: 0 <= b < n - 1 ==> !IdBits(1, n)[b]
  {
    NoId(n - 1);
  }

  lemma {:induction false} NoId(n: nat)
    ensures forall b :: 0 <= b < n ==> !IdBits(0, n)[b]
    decreases n
  {
    if n > 0 {
      NoId(n - 1);
    }
  }

  lemma WithIdIs(h: Hashing)
    ensures WithId(h) == Range(159, 160)
  {
    IdOne(32);
    var f := Range(0, 0);
    var g := WithId(h);
    assert g == f[..128] + IdBits(1, 32) + f[160..];
  }

  /** A subtable with one list of equal rules. */
  function Table(mask: Bits, flow: Bits, list: seq<Match>): Subtable
    requires list != []
  {
    Subtable(mask, [], [], 0, [Head(flow, list)], [], PrefixTrie.Nil, list[0].priority, 1)
  }

  lemma TableOk(h: Hashing, mask: Bits, flow: Bits, list: seq<Match>)
    requires |mask| == |flow| == SIZE && And(flow, mask) == flow && list != [] && Sorted(list)
    requires forall b :: 64 <= b < 96 ==> !mask[b]
    ensures HeadsOk(mask, [Head(flow, list)])
    ensures SubtableOk(SmallConfig(h), Table(mask, flow, list)) && TriesCover(SmallConfig(h), [], Table(mask, flow, list))
    ensures Bounded(Table(mask, flow, list))
  {
  }

  /** What a table has for a flow. */
  lemma TableTail(mask: Bits, flow: Bits, list: seq<Match>, f: Bits, version: nat)
    requires |mask| == |f| && list != [] && list[0].VisibleIn(version)
    ensures SubTail(Table(mask, flow, list), f, version) == if And(f, mask) == flow then list else []
  {
    assert list[|list| - |list|..] == list;
    var heads := [Head(flow, list)];
    assert heads[1..] == [] && FindHead(heads[1..], And(f, mask), version) == [];
  }

  lemma TableHits(mask: Bits, flow: Bits, list: seq<Match>, f: Bits, version: nat, m: Match)
    requires |mask| == |f| && list != []
    ensures HitIn(Table(mask, flow, list), f, version, m) <==> And(f, mask) == flow && m in list && m.VisibleIn(version)
  {
    var st := Table(mask, flow, list);
    if And(f, mask) == flow && m in list && m.VisibleIn(version) {
      assert InHead(st, 0, f, version, m);
    }
  }

  function Rule(id: nat, priority: Priority, conjs: seq<Conjunction>): Match {
    Match(id, priority, 0, VERSION_NOT_REMOVED, conjs)
  }

  // ----- an ordinary rule that is shadowed

  /** A conjunctive rule and an ordinary one that both match on the conjunction id, and the two clauses of
      conjunction 1. */
  function ShadowTables(h: Hashing): seq<Subtable> {
    [Table(Range(128, 160), WithId(h), [Rule(1, 20, [Conjunction(2, 0, 2)]), Rule(2, 5, [])]),
     Table(Range(0, 1), Range(0, 0), [Rule(3, 10, [Conjunction(1, 0, 2)])]),
     Table(Range(1, 2), Range(0, 0), [Rule(4, 10, [Conjunction(1, 1, 2)])])]
  }

  /** What the masks leave of the two flows. */
  lemma Masked(h: Hashing)
    ensures |WithId(h)| == SIZE && WithId(h) != Range(0, 0) && And(Range(0, 0), Range(128, 160)) != WithId(h)
    ensures And(WithId(h), Range(128, 160)) == WithId(h)
  {
    WithIdIs(h);
    assert WithId(h)[159] && !Range(0, 0)[159] && !And(Range(0, 0), Range(128, 160))[159];
  }

  lemma MaskedAt(h: Hashing, k: nat)
    requires k < 64
    ensures And(Range(0, 0), Range(k, k + 1)) == And(WithId(h), Range(k, k + 1)) == Range(0, 0)
  {
    WithIdIs(h);
  }

  lemma ShadowOk(h: Hashing)
    ensures Indexed(SmallConfig(h), ShadowTables(h), []) && Ordered(ShadowTables(h)) && AllDistinct(ShadowTables(h), 0)
  {
    hide SubtableOk, TriesCover, Range, WithId;
    Masked(h);
    MaskedAt(h, 0);
    MaskedAt(h, 1);
    var subs := ShadowTables(h);
    TableOk(h, Range(128, 160), WithId(h), subs[0].heads[0].list);
    TableOk(h, Range(0, 1), Range(0, 0), subs[1].heads[0].list);
    TableOk(h, Range(1, 2), Range(0, 0), subs[2].heads[0].list);
  }

  lemma ShadowHits(h: Hashing, m: Match)
    ensures SameSize(ShadowTables(h), Range(0, 0))
    ensures Hit(ShadowTables(h), Range(0, 0), 0, m) <==>
      m == Rule(3, 10, [Conjunction(1, 0, 2)]) || m == Rule(4, 10, [Conjunction(1, 1, 2)])
  {
    hide HitIn, Hit, Range, WithId;
    Masked(h);
    MaskedAt(h, 0);
    MaskedAt(h, 1);
    var subs, f := ShadowTables(h), Range(0, 0);
    HitInHit(subs, f, 0, m);
    TableHits(Range(128, 160), WithId(h), subs[0].heads[0].list, f, 0, m);
    TableHits(Range(0, 1), f, subs[1].heads[0].list, f, 0, m);
    TableHits(Range(1, 2), f, subs[2].heads[0].list, f, 0, m);
    if HitIn(subs[1], f, 0, m) || HitIn(subs[2], f, 0, m) {
      assert exists k :: 0 <= k < |subs| && HitIn(subs[k], f, 0, m);
    }
  }

  lemma ShadowLeads(h: Hashing)
    ensures SameSize(ShadowTables(h), WithId(h)) && PlainLookup(ShadowTables(h), WithId(h), 0) == None
  {
    hide SubTail, ScanFrom, Range, WithId;
    Masked(h);
    MaskedAt(h, 0);
    MaskedAt(h, 1);
    var subs, f := ShadowTables(h), WithId(h);
    TableTail(Range(128, 160), WithId(h), subs[0].heads[0].list, f, 0);
    TableTail(Range(0, 1), Range(0, 0), subs[1].heads[0].list, f, 0);
    TableTail(Range(1, 2), Range(0, 0), subs[2].heads[0].list, f, 0);
    assert subs[0..] == subs;
    ScanLeads(subs, f, 0, 0, Scan(None, []));
    assert forall m :: !Leads(subs, f, 0, m);
  }

  /** Conjunction 1 is met above every ordinary match, and an ordinary rule matches the flow with its id.
      Yet the lookup finds nothing, because that rule stands behind a conjunctive rule with the same match. */
  lemma ShadowedRule(h: Hashing)
    ensures
      var cfg, subs, f, nOf := SmallConfig(h), ShadowTables(h), Range(0, 0), (id: nat) => 2;
      && Indexed(cfg, subs, []) && Ordered(subs) && AllDistinct(subs, 0) && SameSize(subs, f) && IsFlow(cfg, f)
      && ConjunctionMet(subs, f, 0, 1, 10, nOf) && AboveHard(subs, f, 0, 10)
      && SameSize(subs, SetConjId(cfg, f, 1)) && Hit(subs, SetConjId(cfg, f, 1), 0, Rule(2, 5, []))
      && Lookup(cfg, subs, f, 0) == None
  {
    hide Hit, Lookup, Indexed, Ordered, AllDistinct, SubTail, CountsAsMet;
    var cfg, subs, f, nOf := SmallConfig(h), ShadowTables(h), Range(0, 0), (id: nat) => 2;
    var a, b := Rule(3, 10, [Conjunction(1, 0, 2)]), Rule(4, 10, [Conjunction(1, 1, 2)]);
    ShadowOk(h);
    forall m ensures Hit(subs, f, 0, m) <==> m == a || m == b { ShadowHits(h, m); }
    ShadowHits(h, a);
    assert Conjunction(1, 0, 2) in a.conjs && Conjunction(1, 1, 2) in b.conjs;
    assert ClauseMet(subs, f, 0, 1, 0, 10) && ClauseMet(subs, f, 0, 1, 1, 10);
    ShadowLeads(h);
    ShadowedHit(h);
    forall id: nat, pri | CountsAsMet(subs, f, 0, id, pri, nOf) ensures RuleFor(cfg, subs, f, 0, id).None? {
      SomeClause(subs, f, 0, nOf, id, pri);
    }
    NoConjunctionFound(cfg, subs, f, 0, nOf);
  }

  lemma ShadowedHit(h: Hashing)
    ensures SameSize(ShadowTables(h), WithId(h)) && Hit(ShadowTables(h), WithId(h), 0, Rule(2, 5, []))
  {
    hide Hit, HitIn;
    Masked(h);
    var subs, f := ShadowTables(h), WithId(h);
    HitInHit(subs, f, 0, Rule(2, 5, []));
    TableHits(Range(128, 160), f, subs[0].heads[0].list, f, 0, Rule(2, 5, []));
    assert HitIn(subs[0], f, 0, Rule(2, 5, []));
  }

  /** A conjunction that counts as met is named by a rule that matches. */
  lemma SomeClause(subs: seq<Subtable>, f: Bits, version: nat, nOf: nat -> nat, id: nat, pri: int)
    requires SameSize(subs, f) && CountsAsMet(subs, f, version, id, pri, nOf)
    ensures exists m, c :: Hit(subs, f, version, m) && m.priority == pri && c in m.conjs && c.id == id
  {
    hide Hit, Crowd;
    var b :| ClauseMet(subs, f, version, id, b, pri);
    var m, c :| Hit(subs, f, version, m) && m.priority == pri && c in m.conjs && c.id == id && c.clause == b;
  }

  // ----- a conjunction of 64 clauses

  /** One of the 64 subtables with a rule for the first clause of conjunction 1. */
  function ClauseTable(k: nat): Subtable {
    Table(Range(k, k + 1), Range(0, 0), [Rule(k, 10, [Conjunction(1, 0, 64)])])
  }

  /** Those, and a rule for the flow with the conjunction's id. */
  function ClauseTables(h: Hashing): (subs: seq<Subtable>)
    ensures |subs| == 65 && forall k :: 0 <= k < 64 ==> subs[k] == ClauseTable(k)
  {
    seq(64, k requires 0 <= k < 64 => ClauseTable(k)) + [Table(Range(128, 160), WithId(h), [Rule(100, 5, [])])]
  }

  lemma ClausesOk(h: Hashing)
    ensures Indexed(SmallConfig(h), ClauseTables(h), []) && Ordered(ClauseTables(h)) && AllDistinct(ClauseTables(h), 0)
  {
    hide SubtableOk, TriesCover, Range, WithId;
    Masked(h);
    var subs := ClauseTables(h);
    forall k: nat | k < 64
      ensures SubtableOk(SmallConfig(h), subs[k]) && TriesCover(SmallConfig(h), [], subs[k])
      ensures HeadsOk(subs[k].mask, subs[k].heads) && Bounded(subs[k])
    {
      MaskedAt(h, k);
      TableOk(h, Range(k, k + 1), Range(0, 0), [Rule(k, 10, [Conjunction(1, 0, 64)])]);
    }
    TableOk(h, Range(128, 160), WithId(h), [Rule(100, 5, [])]);
  }

  lemma ClauseHits(h: Hashing, m: Match)
    ensures SameSize(ClauseTables(h), Range(0, 0))
    ensures Hit(ClauseTables(h), Range(0, 0), 0, m) <==> m.id < 64 && m == Rule(m.id, 10, [Conjunction(1, 0, 64)])
  {
    hide HitIn, Hit, Range, WithId;
    Masked(h);
    var subs, f := ClauseTables(h), Range(0, 0);
    HitInHit(subs, f, 0, m);
    forall k: nat | k < 64
      ensures HitIn(subs[k], f, 0, m) <==> m == Rule(k, 10, [Conjunction(1, 0, 64)])
    {
      MaskedAt(h, k);
      TableHits(Range(k, k + 1), f, [Rule(k, 10, [Conjunction(1, 0, 64)])], f, 0, m);
    }
    TableHits(Range(128, 160), WithId(h), [Rule(100, 5, [])], f, 0, m);
    if m.id < 64 && m == Rule(m.id, 10, [Conjunction(1, 0, 64)]) {
      assert HitIn(subs[m.id], f, 0, m);
    }
  }

  ghost function Below(n: nat): (r: set<nat>)
    ensures |r| == n && forall k: nat :: k in r <==> k < n
  {
    if n == 0 then {} else Below(n - 1) + {n - 1}
  }

  lemma InClauseCrowd(h: Hashing, k: nat)
    requires k < 64
    ensures SameSize(ClauseTables(h), Range(0, 0)) && k in Crowd(ClauseTables(h), Range(0, 0), 0, 10)
  {
    hide HitIn, Range, WithId;
    Masked(h);
    MaskedAt(h, k);
    var m := Rule(k, 10, [Conjunction(1, 0, 64)]);
    TableHits(Range(k, k + 1), Range(0, 0), [m], Range(0, 0), 0, m);
    assert HitIn(ClauseTables(h)[k], Range(0, 0), 0, m);
  }

  lemma ClauseCrowd(h: Hashing)
    ensures SameSize(ClauseTables(h), Range(0, 0)) && 64 <= |Crowd(ClauseTables(h), Range(0, 0), 0, 10)|
  {
    hide Below, Crowd, ClauseTables, Range;
    InClauseCrowd(h, 0);
    forall k: nat | k in Below(64) ensures k in Crowd(ClauseTables(h), Range(0, 0), 0, 10) {
      InClauseCrowd(h, k);
    }
    Fewer(Below(64), Crowd(ClauseTables(h), Range(0, 0), 0, 10));
  }

  lemma ClauseLeads(h: Hashing)
    ensures SameSize(ClauseTables(h), WithId(h))
    ensures PlainLookup(ClauseTables(h), WithId(h), 0) == Some(Rule(100, 5, []))
  {
    hide SubTail, ScanFrom, Range, WithId;
    Masked(h);
    var subs, f := ClauseTables(h), WithId(h);
    forall k: nat | k < 64
      ensures SubTail(subs[k], f, 0) == [Rule(k, 10, [Conjunction(1, 0, 64)])]
    {
      MaskedAt(h, k);
      TableTail(Range(k, k + 1), Range(0, 0), [Rule(k, 10, [Conjunction(1, 0, 64)])], f, 0);
    }
    TableTail(Range(128, 160), f, [Rule(100, 5, [])], f, 0);
    var end := ScanFrom(subs, f, 0, false, Scan(None, []));
    assert subs[0..] == subs;
    ClausesOk(h);
    ScanCovers(subs, f, 0, false, 0, Scan(None, []));
    ScanLeads(subs, f, 0, 0, Scan(None, []));
    assert Covered(subs[64], f, 0, false, end);
  }

  /** Of conjunction 1 the first clause is met and the second is not, and no other conjunction is named. */
  lemma ClausesMet(h: Hashing)
    ensures
      var subs, f, nOf := ClauseTables(h), Range(0, 0), (id: nat) => 64;
      && SameSize(subs, f) && ProperHits(subs, f, 0, nOf) && AboveHard(subs, f, 0, 10)
      && (forall id, pri :: !ConjunctionMet(subs, f, 0, id, pri, nOf))
      && (forall id, pri :: CountsAsMet(subs, f, 0, id, pri, nOf) <==> id == 1 && pri == 10)
  {
    hide Hit, SubTail, Range, WithId, Crowd, ClauseTables;
    var subs, f, nOf := ClauseTables(h), Range(0, 0), (id: nat) => 64;
    var first := Rule(0, 10, [Conjunction(1, 0, 64)]);
    ClauseHits(h, first);
    forall m ensures Hit(subs, f, 0, m) <==> m.id < 64 && m == Rule(m.id, 10, [Conjunction(1, 0, 64)]) {
      ClauseHits(h, m);
    }
    assert Conjunction(1, 0, 64) in first.conjs;
    assert ClauseMet(subs, f, 0, 1, 0, 10);
    ClauseCrowd(h);
    forall id, pri ensures !ConjunctionMet(subs, f, 0, id, pri, nOf) {
      assert !ClauseMet(subs, f, 0, id, 1, pri);
    }
  }

  /** A rule is found through a conjunction of 64 clauses of which only the first is met. */
  lemma UnmetConjunction(h: Hashing)
    ensures
      var cfg, subs, f, nOf := SmallConfig(h), ClauseTables(h), Range(0, 0), (id: nat) => 64;
      && Indexed(cfg, subs, []) && Ordered(subs) && AllDistinct(subs, 0) && SameSize(subs, f) && IsFlow(cfg, f)
      && ProperHits(subs, f, 0, nOf) && (forall id, pri :: !ConjunctionMet(subs, f, 0, id, pri, nOf))
      && Lookup(cfg, subs, f, 0) == Some(Rule(100, 5, []))
  {
    hide Hit, Lookup, Indexed, Ordered, AllDistinct, CountsAsMet, ConjunctionMet, ProperHits, AboveHard, ClauseTables;
    var cfg, subs, f, nOf := SmallConfig(h), ClauseTables(h), Range(0, 0), (id: nat) => 64;
    ClausesOk(h);
    ClausesMet(h);
    ClauseLeads(h);
    ConjunctionFound(cfg, subs, f, 0, nOf, 1, 10);
  }
}
