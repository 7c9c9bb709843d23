/** Conjunction ids as numbers: which rules match a flow whose conjunction id has been set. */
module ConjunctionIds {
  import opened Bits
  import opened ClassifierLookup
  import opened Flows
  import opened LookupMeaning
  import opened Numbers
  import opened Subtables

  const ID_BITS := 32

  // ----- bits and numbers

  /** The number that a string of bits stands for, the first bit being the highest. */
  function Number(b: Bits): nat {
    if b == [] then 0
    else 2 * Number(b[..|b| - 1]) + if b[|b| - 1] then 1 else 0
  }

  function Pow2(n: nat): nat {
    if n == 0 then 1 else 2 * Pow2(n - 1)
  }

  lemma Pow2Of32()
    ensures Pow2(ID_BITS) == TWO_32
  {
    assert Pow2(4) == 16;
    assert Pow2(8) == 16 * Pow2(4);
    assert Pow2(12) == 16 * Pow2(8);
    assert Pow2(16) == 16 * Pow2(12);
    assert Pow2(20) == 16 * Pow2(16);
    assert Pow2(24) == 16 * Pow2(20);
    assert Pow2(28) == 16 * Pow2(24);
    assert Pow2(32) == 16 * Pow2(28);
  }

  /** The bits of an id stand for it. */
  lemma {:induction false} IdBitsNumber(id: nat, width: nat)
    requires id < Pow2(width)
    ensures Number(IdBits(id, width)) == id
    decreases width
  {
    if width > 0 {
      IdBitsNumber(id / 2, width - 1);
      var b := IdBits(id, width);
      assert b[..|b| - 1] == IdBits(id / 2, width - 1);
    }
  }

  /** Strings of one length that stand for the same number are the same. */
  lemma {:induction false} NumberUnique(a: Bits, b: Bits)
    requires |a| == |b| && Number(a) == Number(b)
    ensures a == b
    decreases |a|
  {
    if a != [] {
      var n := |a| - 1;
      LastBit(Number(a[..n]), a[n], Number(b[..n]), b[n]);
      NumberUnique(a[..n], b[..n]);
      assert a == a[..n] + [a[n]] && b == b[..n] + [b[n]];
    }
  }

  lemma LastBit(x: nat, p: bool, y: nat, q: bool)
    requires 2 * x + (if p then 1 else 0) == 2 * y + if q then 1 else 0
    ensures x == y && p == q
  {
  }

  // ----- the field of a flow

  predicate InField(cfg: Config, b: int) {
    cfg.conjId <= b < cfg.conjId + ID_BITS
  }

  function ConjIdBits(cfg: Config, f: Bits): (r: Bits)
    requires ValidConfig(cfg) && IsFlow(cfg, f)
    ensures |r| == ID_BITS && forall i :: 0 <= i < ID_BITS ==> r[i] == f[cfg.conjId + i]
  {
    f[cfg.conjId..cfg.conjId + ID_BITS]
  }

  /** The conjunction id in a flow, or the one that a rule matches on. */
  function ConjIdOf(cfg: Config, f: Bits): nat
    requires ValidConfig(cfg) && IsFlow(cfg, f)
  {
    Number(ConjIdBits(cfg, f))
  }

  /** Setting the conjunction id sets it to just that, and changes nothing else of the flow. */
  lemma SetsConjId(cfg: Config, f: Bits, id: nat)
    requires ValidConfig(cfg) && IsFlow(cfg, f) && id < TWO_32
    ensures ConjIdOf(cfg, SetConjId(cfg, f, id)) == id
    ensures forall b :: 0 <= b < |f| && !InField(cfg, b) ==> SetConjId(cfg, f, id)[b] == f[b]
  {
    var g := SetConjId(cfg, f, id);
    assert g == f[..cfg.conjId] + IdBits(id, ID_BITS) + f[cfg.conjId + ID_BITS..];
    assert ConjIdBits(cfg, g) == IdBits(id, ID_BITS);
    Pow2Of32();
    IdBitsNumber(id, ID_BITS);
  }

  // ----- the rules that match

  /** Rules match on the whole conjunction id or on no bit of it: OpenFlow has no masks for it. */
  predicate CoversId(cfg: Config, mask: Bits) {
    forall b :: 0 <= b < |mask| && InField(cfg, b) ==> mask[b]
  }

  predicate AvoidsId(cfg: Config, mask: Bits) {
    forall b :: 0 <= b < |mask| && InField(cfg, b) ==> !mask[b]
  }

  /** The rule's other fields match `f`. */
  predicate MatchesRest(cfg: Config, mask: Bits, flow: Bits, f: Bits)
    requires |mask| == |flow| == |f|
  {
    forall b :: 0 <= b < |f| && !InField(cfg, b) ==> flow[b] == (f[b] && mask[b])
  }

  /** A rule that matches on the id matches a flow with the id set exactly when its other fields match and its id
      is the one that was set; a rule that does not match on it, exactly when it matches the flow. */
  lemma MatchesWithId(cfg: Config, mask: Bits, flow: Bits, f: Bits, id: nat)
    requires ValidConfig(cfg) && IsFlow(cfg, mask) && IsFlow(cfg, flow) && IsFlow(cfg, f) && id < TWO_32
    ensures CoversId(cfg, mask) ==>
      (And(SetConjId(cfg, f, id), mask) == flow <==> MatchesRest(cfg, mask, flow, f) && ConjIdOf(cfg, flow) == id)
    ensures AvoidsId(cfg, mask) ==> And(SetConjId(cfg, f, id), mask) == And(f, mask)
  {
    hide SetConjId, Number;
    SetsConjId(cfg, f, id);
    var g := SetConjId(cfg, f, id);
    if CoversId(cfg, mask) && MatchesRest(cfg, mask, flow, f) && ConjIdOf(cfg, flow) == id {
      NumberUnique(ConjIdBits(cfg, g), ConjIdBits(cfg, flow));
      SameId(cfg, g, flow);
    }
    if CoversId(cfg, mask) && And(g, mask) == flow {
      assert ConjIdBits(cfg, flow) == ConjIdBits(cfg, g);
    }
  }

  lemma SameId(cfg: Config, f: Bits, g: Bits)
    requires ValidConfig(cfg) && IsFlow(cfg, f) && IsFlow(cfg, g) && ConjIdBits(cfg, f) == ConjIdBits(cfg, g)
    ensures forall b :: 0 <= b < |f| && InField(cfg, b) ==> f[b] == g[b]
  {
    forall b | 0 <= b < |f| && InField(cfg, b) ensures f[b] == g[b] {
      assert ConjIdBits(cfg, f)[b - cfg.conjId] == ConjIdBits(cfg, g)[b - cfg.conjId];
    }
  }

  /** A visible rule of head `j` that is for conjunction `id`: it matches on the id, which is this one, or not on
      the id at all, and the rest of it matches `f`. */
  predicate ForId(cfg: Config, st: Subtable, j: nat, f: Bits, version: nat, id: nat, m: Match)
    requires ValidConfig(cfg) && IsFlow(cfg, f) && IsFlow(cfg, st.mask)
    requires j < |st.heads| && IsFlow(cfg, st.heads[j].flow)
  {
    && m in st.heads[j].list && m.addVersion <= version < m.removeVersion
    && MatchesRest(cfg, st.mask, st.heads[j].flow, f)
    && (CoversId(cfg, st.mask) ==> ConjIdOf(cfg, st.heads[j].flow) == id)
  }

  /** All rules match on the whole id or on no bit of it. */
  predicate WholeIds(cfg: Config, subs: seq<Subtable>) {
    forall k :: 0 <= k < |subs| ==>
      && IsFlow(cfg, subs[k].mask) && HeadsOk(subs[k].mask, subs[k].heads)
      && (CoversId(cfg, subs[k].mask) || AvoidsId(cfg, subs[k].mask))
  }

  /** The rules that match a flow with the id set are those for that id. */
  lemma HitWithId(cfg: Config, subs: seq<Subtable>, f: Bits, version: nat, id: nat, m: Match)
    requires ValidConfig(cfg) && IsFlow(cfg, f) && id < TWO_32 && WholeIds(cfg, subs)
    ensures SameSize(subs, SetConjId(cfg, f, id))
    ensures forall k, j :: 0 <= k < |subs| && 0 <= j < |subs[k].heads| ==> IsFlow(cfg, subs[k].heads[j].flow)
    ensures Hit(subs, SetConjId(cfg, f, id), version, m) <==>
      exists k, j :: 0 <= k < |subs| && 0 <= j < |subs[k].heads| && ForId(cfg, subs[k], j, f, version, id, m)
  {
    hide SetConjId, ConjIdOf;
    forall k, j | 0 <= k < |subs| && 0 <= j < |subs[k].heads|
      ensures IsFlow(cfg, subs[k].heads[j].flow)
      ensures InHead(subs[k], j, SetConjId(cfg, f, id), version, m) <==> ForId(cfg, subs[k], j, f, version, id, m)
    {
      assert HeadOk(subs[k].mask, subs[k].heads[j]);
      InHeadForId(cfg, subs[k], j, f, version, id, m);
    }
  }

  lemma InHeadForId(cfg: Config, st: Subtable, j: nat, f: Bits, version: nat, id: nat, m: Match)
    requires ValidConfig(cfg) && IsFlow(cfg, f) && id < TWO_32 && IsFlow(cfg, st.mask)
    requires j < |st.heads| && HeadOk(st.mask, st.heads[j]) && (CoversId(cfg, st.mask) || AvoidsId(cfg, st.mask))
    ensures InHead(st, j, SetConjId(cfg, f, id), version, m) <==> ForId(cfg, st, j, f, version, id, m)
  {
    hide SetConjId, ConjIdOf;
    var flow := st.heads[j].flow;
    MatchesWithId(cfg, st.mask, flow, f, id);
    if AvoidsId(cfg, st.mask) {
      assert !CoversId(cfg, st.mask) by { assert InField(cfg, cfg.conjId) && !st.mask[cfg.conjId]; }
      if MatchesRest(cfg, st.mask, flow, f) {
        assert flow == And(flow, st.mask);
        assert forall b :: 0 <= b < |f| ==> flow[b] == (f[b] && st.mask[b]);
        assert flow == And(f, st.mask);
      }
    }
  }
}
