/** Lookup in one subtable.  The staged indices, the prefix tries and the ports trie only decide how
    soon the search may stop and which bits it must un-wildcard; the answer is the one that the masked
    value gives, for the flow itself and for every flow that agrees with it on the un-wildcarded bits. */
module StagedLookup {
  import opened Bits
  import opened Flows
  import opened PrefixTrie
  import opened Subtables
  import opened Wrappers

  ghost predicate NoHead(st: Subtable, f: Bits)
    requires |f| == |st.mask|
  {
    forall k :: 0 <= k < |st.heads| ==> st.heads[k].flow != And(f, st.mask)
  }

  lemma {:induction false} NoHeadNoTail(heads: seq<Head>, key: Bits, version: nat)
    requires forall k :: 0 <= k < |heads| ==> heads[k].flow != key
    ensures FindHead(heads, key, version) == []
  {
    if heads != [] {
      NoHeadNoTail(heads[1..], key, version);
    }
  }

  /** A hash missing from a stage index rules out every flow with the same masked bits up to there. */
  lemma StageMiss(cfg: Config, st: Subtable, i: nat, f: Bits, g: Bits)
    requires ValidConfig(cfg) && SubtableOk(cfg, st) && IsFlow(cfg, f) && IsFlow(cfg, g)
    requires i < |st.cuts| && StageHash(cfg.hashing, f, st.mask, st.cuts[i]) !in st.indices[i]
    requires forall b :: 0 <= b < WORD * st.cuts[i] && st.mask[b] ==> f[b] == g[b]
    ensures NoHead(st, g)
  {
    var cut := st.cuts[i];
    var hashes := StageHashes(cfg, st.mask, cut, st.heads);
    forall k | 0 <= k < |st.heads| ensures st.heads[k].flow != And(g, st.mask) {
      assert hashes[k] in st.indices[i];
      if st.heads[k].flow == And(g, st.mask) {
        HashWordsAgree(cfg.hashing, 0, f, st.heads[k].flow, st.mask, 0, cut);
      }
    }
  }

  /** Under a prefix mask, masking leaves the prefix alone. */
  lemma MaskedPrefix(cfg: Config, mask: Bits, j: nat, g: Bits)
    requires ValidConfig(cfg) && IsFlow(cfg, mask) && IsFlow(cfg, g) && j < |cfg.fields|
    ensures
      var plen := PrefixLength(FieldBits(cfg, j, mask));
      FieldBits(cfg, j, And(g, mask))[..plen] == FieldBits(cfg, j, g)[..plen]
  {
    var m, masked, bits := FieldBits(cfg, j, mask), FieldBits(cfg, j, And(g, mask)), FieldBits(cfg, j, g);
    forall i | 0 <= i < PrefixLength(m) ensures masked[i] == bits[i] {
      assert m[i] && mask[cfg.fields[j].ofs + i];
    }
  }

  /** A prefix length missing from the trie's answer rules out every flow that shares the bits the
      answer depends on. */
  lemma TrieMiss(cfg: Config, tries: seq<Trie>, st: Subtable, j: nat, f: Bits, g: Bits)
    requires ValidConfig(cfg) && SubtableOk(cfg, st) && TriesCover(cfg, tries, st)
    requires IsFlow(cfg, f) && IsFlow(cfg, g) && j < |tries| && st.triePlen[j] > 0
    requires
      var found := Lookup(tries[j], FieldBits(cfg, j, f));
      && st.triePlen[j] !in found.plens
      && found.bits <= cfg.fields[j].width
      && FieldBits(cfg, j, f)[..found.bits] == FieldBits(cfg, j, g)[..found.bits]
    ensures NoHead(st, g)
  {
    var w, plen := FieldBits(cfg, j, g), st.triePlen[j];
    LookupStable(tries[j], FieldBits(cfg, j, f), w);
    LookupExact(tries[j], w, plen);
    MaskedPrefix(cfg, st.mask, j, g);
    assert Count(tries[j], w[..plen]) == 0;
    forall k | 0 <= k < |st.heads| ensures st.heads[k].flow != And(g, st.mask) {
      assert Count(tries[j], FieldBits(cfg, j, st.heads[k].flow)[..plen]) > 0;
    }
  }

  /** The masked ports of `f`, which is what the ports trie stores. */
  function MaskedPorts(cfg: Config, st: Subtable, f: Bits): (v: Bits)
    requires ValidConfig(cfg) && IsFlow(cfg, st.mask) && IsFlow(cfg, f)
    ensures |v| == PORT_BITS && v == Ports(cfg, And(f, st.mask))
  {
    And(Ports(cfg, f), Ports(cfg, st.mask))
  }

  /** `f` and `g` agree on the mask, except perhaps on its ports bits after the first `bits`. */
  predicate AgreeButPorts(cfg: Config, mask: Bits, f: Bits, g: Bits, bits: nat)
    requires IsFlow(cfg, mask) && IsFlow(cfg, f) && IsFlow(cfg, g)
  {
    forall b :: 0 <= b < |mask| && mask[b] && !(cfg.ports + bits <= b < cfg.ports + PORT_BITS) ==> f[b] == g[b]
  }

  /** The bits that the ports trie names decide the whole subtable for flows that agree elsewhere. */
  lemma PortsDecide(cfg: Config, st: Subtable, f: Bits, g: Bits, version: nat)
    requires ValidConfig(cfg) && SubtableOk(cfg, st) && IsFlow(cfg, f) && IsFlow(cfg, g) && st.portsLen > 0
    requires AgreeButPorts(cfg, st.mask, f, g, Lookup(st.portsTrie, MaskedPorts(cfg, st, f)).bits)
    ensures SubTail(st, g, version) == SubTail(st, f, version)
  {
    var v, w, len := MaskedPorts(cfg, st, f), MaskedPorts(cfg, st, g), st.portsLen;
    var found := Lookup(st.portsTrie, v);
    LookupExact(st.portsTrie, v, len);
    if len in found.plens {
      PortsAgree(cfg, st, f, g, found.bits);
    } else {
      SamePorts(cfg, st, f, g, found.bits);
      LookupStable(st.portsTrie, v, w);
      LookupExact(st.portsTrie, w, len);
      PortsMiss(cfg, st, f);
      PortsMiss(cfg, st, g);
      NoHeadNoTail(st.heads, And(f, st.mask), version);
      NoHeadNoTail(st.heads, And(g, st.mask), version);
    }
  }

  lemma AbsentFrom(s: seq<Bits>, x: Bits)
    requires multiset(s)[x] == 0
    ensures forall k :: 0 <= k < |s| ==> s[k] != x
  {
    assert forall k :: 0 <= k < |s| ==> s[k] in multiset(s);
  }

  /** Ports that no head has rule the subtable out. */
  lemma PortsMiss(cfg: Config, st: Subtable, g: Bits)
    requires ValidConfig(cfg) && SubtableOk(cfg, st) && IsFlow(cfg, g) && st.portsLen > 0
    requires Count(st.portsTrie, MaskedPorts(cfg, st, g)[..st.portsLen]) == 0
    ensures NoHead(st, g)
  {
    hide IndicesOk, StagesOk, PlensOk, Count, WellFormed, Depth, SignificantLength;
    var len := st.portsLen;
    var ps := Prefixes(st.heads, cfg.ports, len);
    var x := MaskedPorts(cfg, st, g)[..len];
    var y := And(g, st.mask);
    assert x == y[cfg.ports..cfg.ports + len];
    assert multiset(ps)[x] == 0;
    AbsentFrom(ps, x);
    forall k | 0 <= k < |st.heads| ensures st.heads[k].flow != y {
      assert ps[k] != x;
      assert HeadOk(st.mask, st.heads[k]);
    }
  }

  lemma SamePorts(cfg: Config, st: Subtable, f: Bits, g: Bits, bits: nat)
    requires ValidConfig(cfg) && IsFlow(cfg, st.mask) && IsFlow(cfg, f) && IsFlow(cfg, g) && bits <= PORT_BITS
    requires AgreeButPorts(cfg, st.mask, f, g, bits)
    ensures MaskedPorts(cfg, st, f)[..bits] == MaskedPorts(cfg, st, g)[..bits]
  {
    var m, p, q := Ports(cfg, st.mask), Ports(cfg, f), Ports(cfg, g);
    forall i | 0 <= i < bits && m[i] ensures p[i] == q[i] {
      assert m[i] == st.mask[cfg.ports + i] && p[i] == f[cfg.ports + i] && q[i] == g[cfg.ports + i];
    }
  }

  /** Enough ports bits to cover the mask's ports make the flows agree on the whole mask. */
  lemma PortsAgree(cfg: Config, st: Subtable, f: Bits, g: Bits, bits: nat)
    requires ValidConfig(cfg) && IsFlow(cfg, st.mask) && IsFlow(cfg, f) && IsFlow(cfg, g)
    requires SignificantLength(Ports(cfg, st.mask)) <= bits && AgreeButPorts(cfg, st.mask, f, g, bits)
    ensures And(f, st.mask) == And(g, st.mask)
  {
    var m := Ports(cfg, st.mask);
    forall b | cfg.ports + bits <= b < cfg.ports + PORT_BITS ensures !st.mask[b] {
      assert m[b - cfg.ports] == st.mask[b];
    }
    AgreeAnd(f, g, st.mask);
  }

  // ----- the search

  /** What one lookup knows about a trie: the trie is searched when first needed. */
  datatype TrieCtx = Pending | Done(bits: nat, plens: set<nat>)

  function AllLengths(width: nat): (r: set<nat>)
    ensures forall len: nat :: len in r <==> len <= width
  {
    if width == 0 then {0} else AllLengths(width - 1) + {width}
  }

  /** A trie's answer for `f`: no length is ruled out for a flow without the field. */
  function TrieAnswer(cfg: Config, tries: seq<Trie>, j: nat, f: Bits): (r: TrieCtx)
    requires ValidConfig(cfg) && IsFlow(cfg, f) && j < |cfg.fields| == |tries|
    ensures r.Done?
  {
    if cfg.fields[j].prereqs(f) then
      var found := Lookup(tries[j], FieldBits(cfg, j, f));
      Done(found.bits, found.plens)
    else
      Done(0, AllLengths(cfg.fields[j].width))
  }

  ghost predicate CtxOk(cfg: Config, tries: seq<Trie>, ctx: seq<TrieCtx>, f: Bits)
    requires ValidConfig(cfg) && IsFlow(cfg, f) && |cfg.fields| == |tries|
  {
    && |ctx| == |tries|
    && forall j :: 0 <= j < |ctx| ==> ctx[j].Pending? || ctx[j] == TrieAnswer(cfg, tries, j, f)
  }

  /** Whether the bits of `wc` from `lo` up to `hi` are all set. */
  predicate BitsSet(wc: Bits, lo: nat, hi: nat)
    requires hi <= |wc|
  {
    forall b :: lo <= b < hi ==> wc[b]
  }

  lemma TrieAnswerBits(cfg: Config, tries: seq<Trie>, st: Subtable, j: nat, f: Bits)
    requires ValidConfig(cfg) && SubtableOk(cfg, st) && TriesCover(cfg, tries, st) && IsFlow(cfg, f)
    requires j < |tries| && st.triePlen[j] !in TrieAnswer(cfg, tries, j, f).plens
    ensures TrieAnswer(cfg, tries, j, f).bits <= cfg.fields[j].width && cfg.fields[j].prereqs(f)
  {
    LookupExact(tries[j], FieldBits(cfg, j, f), 0);
  }

  /** Once the bits that a trie's answer depends on are un-wildcarded, the answer may be used. */
  lemma TrieSkip(cfg: Config, tries: seq<Trie>, st: Subtable, j: nat, f: Bits, wc: Bits)
    requires ValidConfig(cfg) && SubtableOk(cfg, st) && TriesCover(cfg, tries, st)
    requires IsFlow(cfg, f) && IsFlow(cfg, wc) && j < |tries| && st.triePlen[j] > 0
    requires
      var answer, ofs := TrieAnswer(cfg, tries, j, f), cfg.fields[j].ofs;
      && st.triePlen[j] !in answer.plens && answer.bits <= cfg.fields[j].width
      && BitsSet(wc, ofs, ofs + answer.bits)
    ensures forall g :: Agree(f, g, wc) ==> NoHead(st, g)
  {
    TrieAnswerBits(cfg, tries, st, j, f);
    var bits := TrieAnswer(cfg, tries, j, f).bits;
    forall g | Agree(f, g, wc) ensures NoHead(st, g) {
      assert FieldBits(cfg, j, f)[..bits] == FieldBits(cfg, j, g)[..bits];
      TrieMiss(cfg, tries, st, j, f, g);
    }
  }

  /** `wc'` has no bits but those of `wc` and of the mask. */
  predicate OnlyFrom(wc: Bits, wc': Bits, mask: Bits) {
    |wc| == |wc'| == |mask| && forall b :: 0 <= b < |wc| && wc'[b] ==> wc[b] || mask[b]
  }

  lemma GainsNothing(wc: Bits, mask: Bits)
    requires |wc| == |mask|
    ensures Within(wc, wc) && OnlyFrom(wc, wc, mask)
  {
  }

  /** A prefix that is no longer than the mask's adds no bits but the mask's. */
  lemma PrefixOnlyFrom(cfg: Config, st: Subtable, j: nat, bits: nat, wc: Bits)
    requires ValidConfig(cfg) && SubtableOk(cfg, st) && IsFlow(cfg, wc)
    requires j < |cfg.fields| && bits <= st.triePlen[j]
    ensures OnlyFrom(wc, SetBits(wc, cfg.fields[j].ofs, cfg.fields[j].ofs + bits), st.mask)
  {
    hide IndicesOk, PortsOk, HeadsOk, StagesOk;
    var ofs := cfg.fields[j].ofs;
    forall b | ofs <= b < ofs + bits ensures st.mask[b] {
      assert FieldBits(cfg, j, st.mask)[b - ofs] == st.mask[b];
    }
  }

  /** The trie of a field in the words from `lo` to `hi` has no prefix for the subtable, and from bit `n` on the mask
      gains only bits that the answer of the trie depends on. */
  predicate RulesOut(cfg: Config, tries: seq<Trie>, st: Subtable, j: nat, lo: nat, hi: nat, f: Bits, wc: Bits, wc': Bits, n: nat)
    requires ValidConfig(cfg) && IsFlow(cfg, f) && |tries| == |cfg.fields| && j < |cfg.fields|
    requires |st.triePlen| == |cfg.fields| && |wc| == |wc'|
  {
    var ofs, answer := cfg.fields[j].ofs, TrieAnswer(cfg, tries, j, f);
    && st.triePlen[j] > 0 && lo <= ofs / WORD < hi && st.triePlen[j] !in answer.plens
    && forall b :: n <= b < |wc| && !(ofs <= b < ofs + answer.bits) ==> wc'[b] == wc[b]
  }

  /** The trie of the field does not rule the subtable out, or only at the price of bits that neither the subtable's
      prefix nor the mask has. */
  predicate LetsPass(cfg: Config, tries: seq<Trie>, st: Subtable, j: nat, lo: nat, hi: nat, f: Bits, wc: Bits)
    requires ValidConfig(cfg) && IsFlow(cfg, f) && |tries| == |cfg.fields| && j < |cfg.fields|
    requires |st.triePlen| == |cfg.fields| && IsFlow(cfg, wc)
  {
    var ofs, plen, answer := cfg.fields[j].ofs, st.triePlen[j], TrieAnswer(cfg, tries, j, f);
    plen > 0 && lo <= ofs / WORD < hi && plen !in answer.plens ==>
      answer.bits > plen && exists b :: ofs <= b < ofs + answer.bits && b < |wc| && !wc[b]
  }

  /** No trie of a field in the words from `lo` to `hi` rules the subtable out. */
  predicate AllPass(cfg: Config, tries: seq<Trie>, st: Subtable, lo: nat, hi: nat, f: Bits, wc: Bits)
    requires ValidConfig(cfg) && IsFlow(cfg, f) && |tries| == |cfg.fields| && |st.triePlen| == |cfg.fields| && IsFlow(cfg, wc)
  {
    forall j :: 0 <= j < |cfg.fields| ==> LetsPass(cfg, tries, st, j, lo, hi, f, wc)
  }

  lemma NonePassed(cfg: Config, tries: seq<Trie>, st: Subtable, f: Bits, wc: Bits)
    requires ValidConfig(cfg) && IsFlow(cfg, f) && |tries| == |cfg.fields| && |st.triePlen| == |cfg.fields| && IsFlow(cfg, wc)
    ensures AllPass(cfg, tries, st, 0, 0, f, wc)
  {
  }

  lemma PassOn(cfg: Config, tries: seq<Trie>, st: Subtable, lo: nat, mid: nat, hi: nat, f: Bits, wc: Bits)
    requires ValidConfig(cfg) && IsFlow(cfg, f) && |tries| == |cfg.fields| && |st.triePlen| == |cfg.fields| && IsFlow(cfg, wc)
    requires AllPass(cfg, tries, st, lo, mid, f, wc) && AllPass(cfg, tries, st, mid, hi, f, wc)
    ensures AllPass(cfg, tries, st, lo, hi, f, wc)
  {
    hide TrieAnswer;
    forall j | 0 <= j < |cfg.fields| ensures LetsPass(cfg, tries, st, j, lo, hi, f, wc) {
      assert LetsPass(cfg, tries, st, j, lo, mid, f, wc) && LetsPass(cfg, tries, st, j, mid, hi, f, wc);
    }
  }

  lemma RuledOut(cfg: Config, tries: seq<Trie>, st: Subtable, j: nat, lo: nat, hi: nat, f: Bits, wc: Bits, wc': Bits)
    requires ValidConfig(cfg) && SubtableOk(cfg, st) && TriesCover(cfg, tries, st) && IsFlow(cfg, f) && IsFlow(cfg, wc)
    requires j < |tries| && st.triePlen[j] > 0 && lo <= cfg.fields[j].ofs / WORD < hi
    requires
      var ofs, answer := cfg.fields[j].ofs, TrieAnswer(cfg, tries, j, f);
      && st.triePlen[j] !in answer.plens && answer.bits <= cfg.fields[j].width
      && (if answer.bits <= st.triePlen[j] then wc' == SetBits(wc, ofs, ofs + answer.bits)
          else BitsSet(wc, ofs, ofs + answer.bits) && wc' == wc)
    ensures RulesOut(cfg, tries, st, j, lo, hi, f, wc, wc', 0)
    ensures Within(wc, wc') && OnlyFrom(wc, wc', st.mask)
    ensures forall g :: Agree(f, g, wc') ==> NoHead(st, g)
  {
    hide TrieAnswer, NoHead, Agree, IndicesOk, PortsOk, HeadsOk, StagesOk;
    TrieSkip(cfg, tries, st, j, f, wc');
    if TrieAnswer(cfg, tries, j, f).bits <= st.triePlen[j] {
      PrefixOnlyFrom(cfg, st, j, TrieAnswer(cfg, tries, j, f).bits, wc);
    }
  }

  lemma PassedOne(cfg: Config, tries: seq<Trie>, st: Subtable, j: nat, lo: nat, hi: nat, f: Bits, wc: Bits)
    requires ValidConfig(cfg) && SubtableOk(cfg, st) && TriesCover(cfg, tries, st) && IsFlow(cfg, f) && IsFlow(cfg, wc)
    requires j < |tries|
    requires
      var ofs, plen, answer := cfg.fields[j].ofs, st.triePlen[j], TrieAnswer(cfg, tries, j, f);
      plen > 0 && lo <= ofs / WORD < hi && plen !in answer.plens ==>
        plen < answer.bits <= cfg.fields[j].width && !BitsSet(wc, ofs, ofs + answer.bits)
    ensures LetsPass(cfg, tries, st, j, lo, hi, f, wc)
  {
    hide TrieAnswer;
  }

  method CheckTries(cfg: Config, tries: seq<Trie>, st: Subtable, ctx: seq<TrieCtx>, lo: nat, hi: nat, f: Bits, wc: Bits)
    returns (skip: bool, ctx': seq<TrieCtx>, wc': Bits)
    requires ValidConfig(cfg) && SubtableOk(cfg, st) && TriesCover(cfg, tries, st)
    requires IsFlow(cfg, f) && IsFlow(cfg, wc) && CtxOk(cfg, tries, ctx, f)
    ensures CtxOk(cfg, tries, ctx', f) && |wc'| == |wc| && Within(wc, wc')
    ensures skip ==> forall g :: Agree(f, g, wc') ==> NoHead(st, g)
    ensures !skip ==> wc' == wc
    ensures OnlyFrom(wc, wc', st.mask)
    ensures skip ==> exists j :: 0 <= j < |cfg.fields| && RulesOut(cfg, tries, st, j, lo, hi, f, wc, wc', 0)
    ensures !skip ==> AllPass(cfg, tries, st, lo, hi, f, wc)
  {
    hide TrieAnswer, NoHead, LetsPass, RulesOut, IndicesOk, PortsOk, HeadsOk, StagesOk, Within, OnlyFrom, Agree;
    ctx', wc' := ctx, wc;
    for j := 0 to |cfg.fields|
      invariant CtxOk(cfg, tries, ctx', f) && wc' == wc
      invariant forall i :: 0 <= i < j ==> LetsPass(cfg, tries, st, i, lo, hi, f, wc)
    {
      var ofs, plen := cfg.fields[j].ofs, st.triePlen[j];
      if plen > 0 && lo <= ofs / WORD < hi {
        if ctx'[j].Pending? {
          ctx' := ctx'[j := TrieAnswer(cfg, tries, j, f)];
        }
        if plen !in ctx'[j].plens {
          var bits := ctx'[j].bits;
          TrieAnswerBits(cfg, tries, st, j, f);
          if bits <= plen {
            wc' := SetBits(wc, ofs, ofs + bits);
            RuledOut(cfg, tries, st, j, lo, hi, f, wc, wc');
            return true, ctx', wc';
          }
          if BitsSet(wc, ofs, ofs + bits) {
            RuledOut(cfg, tries, st, j, lo, hi, f, wc, wc');
            return true, ctx', wc';
          }
        }
      }
      PassedOne(cfg, tries, st, j, lo, hi, f, wc);
    }
    skip := false;
    GainsNothing(wc, st.mask);
  }

  /** Searches the heads with the given hash for one that matches `f` and has a visible rule. */
  method FindMatch(cfg: Config, st: Subtable, version: nat, f: Bits, hash: nat) returns (tail: seq<Match>)
    requires ValidConfig(cfg) && SubtableOk(cfg, st) && IsFlow(cfg, f)
    requires hash == StageHash(cfg.hashing, f, st.mask, cfg.words)
    ensures tail == SubTail(st, f, version)
  {
    var key := And(f, st.mask);
    for k := 0 to |st.heads|
      invariant FindHead(st.heads, key, version) == FindHead(st.heads[k..], key, version)
    {
      var h := st.heads[k];
      assert st.heads[k..][0] == h && st.heads[k..][1..] == st.heads[k + 1..];
      if StageHash(cfg.hashing, h.flow, st.mask, cfg.words) == hash {
        if h.flow == key {
          tail := VisibleFrom(h.list, version);
          if tail != [] {
            return;
          }
        }
      } else if h.flow == key {
        HashWordsAgree(cfg.hashing, 0, f, h.flow, st.mask, 0, cfg.words);
        assert false;
      }
    }
    tail := [];
  }

  /** `tail` is the answer for every flow that agrees with `f` on `wc`. */
  ghost predicate Decided(st: Subtable, f: Bits, version: nat, wc: Bits, tail: seq<Match>)
    requires |f| == |st.mask|
  {
    forall g :: Agree(f, g, wc) ==> SubTail(st, g, version) == tail
  }

  /** Un-wildcarding more bits keeps a miss a miss. */
  lemma MissDecided(st: Subtable, f: Bits, version: nat, wc: Bits, wc': Bits)
    requires |f| == |st.mask| && Within(wc, wc')
    requires forall g :: Agree(f, g, wc) ==> NoHead(st, g)
    ensures Decided(st, f, version, wc', [])
  {
    forall g | Agree(f, g, wc') ensures SubTail(st, g, version) == [] {
      assert Agree(f, g, wc);
      NoHeadNoTail(st.heads, And(g, st.mask), version);
    }
  }

  lemma StageDecided(cfg: Config, st: Subtable, i: nat, f: Bits, version: nat, wc: Bits)
    requires ValidConfig(cfg) && SubtableOk(cfg, st) && IsFlow(cfg, f) && IsFlow(cfg, wc)
    requires i < |st.cuts| && StageHash(cfg.hashing, f, st.mask, st.cuts[i]) !in st.indices[i]
    ensures Decided(st, f, version, Fold(wc, st.mask, WORD * st.cuts[i]), [])
  {
    var wc' := Fold(wc, st.mask, WORD * st.cuts[i]);
    forall g | Agree(f, g, wc') ensures NoHead(st, g) {
      StageMiss(cfg, st, i, f, g);
    }
    MissDecided(st, f, version, wc', wc');
  }

  /** A mask that covers the subtable's decides it. */
  lemma MaskDecided(st: Subtable, f: Bits, version: nat, wc: Bits)
    requires |f| == |st.mask| == |wc| && Within(st.mask, wc)
    ensures Decided(st, f, version, wc, SubTail(st, f, version))
  {
    forall g | Agree(f, g, wc) ensures SubTail(st, g, version) == SubTail(st, f, version) {
      AgreeAnd(f, g, st.mask);
    }
  }

  /** `wc` with the subtable's mask folded in, except that of the ports only the first `bits` are. */
  function FoldButPorts(cfg: Config, wc: Bits, mask: Bits, bits: nat): (r: Bits)
    requires ValidConfig(cfg) && IsFlow(cfg, wc) && IsFlow(cfg, mask)
    ensures IsFlow(cfg, r) && Within(wc, r) && OnlyFrom(wc, r, mask)
    ensures forall b :: 0 <= b < |r| && mask[b] && !(cfg.ports + bits <= b < cfg.ports + PORT_BITS) ==> r[b]
  {
    var folded := Fold(wc, mask, WORD * cfg.words);
    seq(|wc|, b requires 0 <= b < |wc| =>
      if cfg.ports <= b < cfg.ports + PORT_BITS then (mask[b] && b < cfg.ports + bits) || wc[b] else folded[b])
  }

  lemma PortsDecided(cfg: Config, st: Subtable, f: Bits, version: nat, wc: Bits)
    requires ValidConfig(cfg) && SubtableOk(cfg, st) && IsFlow(cfg, f) && IsFlow(cfg, wc) && st.portsLen > 0
    ensures
      var bits := Lookup(st.portsTrie, MaskedPorts(cfg, st, f)).bits;
      Decided(st, f, version, FoldButPorts(cfg, wc, st.mask, bits), SubTail(st, f, version))
  {
    var wc' := FoldButPorts(cfg, wc, st.mask, Lookup(st.portsTrie, MaskedPorts(cfg, st, f)).bits);
    forall g | Agree(f, g, wc') ensures SubTail(st, g, version) == SubTail(st, f, version) {
      PortsDecide(cfg, st, f, g, version);
    }
  }

  /** A trie has ruled the subtable out. */
  lemma SkipDecided(st: Subtable, f: Bits, version: nat, wc: Bits, wc1: Bits, lo: nat)
    requires |f| == |st.mask| == |wc| == |wc1| && Within(wc, wc1) && OnlyFrom(wc, wc1, st.mask) && lo <= |wc1|
    requires forall g :: Agree(f, g, wc1) ==> NoHead(st, g)
    ensures
      var wc' := Fold(wc1, st.mask, lo);
      Within(wc, wc') && OnlyFrom(wc, wc', st.mask) && Decided(st, f, version, wc', [])
  {
    hide Decided, NoHead;
    MissDecided(st, f, version, wc1, Fold(wc1, st.mask, lo));
  }

  lemma EndsByTrie(cfg: Config, tries: seq<Trie>, st: Subtable, f: Bits, wc: Bits, wc1: Bits, i: nat, j: nat)
    requires ValidConfig(cfg) && SubtableOk(cfg, st) && IsFlow(cfg, f) && |tries| == |cfg.fields| && |wc| == |wc1| == |f|
    requires i <= |st.cuts| && StagesHit(cfg, st, f, i) && j < |cfg.fields|
    requires RulesOut(cfg, tries, st, j, StageStart(st, i), StageEnd(cfg, st, i), f, wc, wc1, 0)
    ensures EndsAt(cfg, tries, st, f, wc, Fold(wc1, st.mask, WORD * StageStart(st, i)), [], ByTrie(i))
  {
    hide StagesHit, TrieAnswer;
    var lo := StageStart(st, i);
    assert RulesOut(cfg, tries, st, j, lo, StageEnd(cfg, st, i), f, wc, Fold(wc1, st.mask, WORD * lo), WORD * lo);
  }

  lemma EndsByStage(cfg: Config, tries: seq<Trie>, st: Subtable, f: Bits, wc: Bits, i: nat)
    requires ValidConfig(cfg) && SubtableOk(cfg, st) && IsFlow(cfg, f) && |tries| == |cfg.fields| && |wc| == |f|
    requires i < |st.cuts| && StagesHit(cfg, st, f, i) && StageHash(cfg.hashing, f, st.mask, st.cuts[i]) !in st.indices[i]
    requires AllPass(cfg, tries, st, 0, st.cuts[i], f, wc)
    ensures EndsAt(cfg, tries, st, f, wc, Fold(wc, st.mask, WORD * st.cuts[i]), [], ByStage(i))
  {
    hide StagesHit, StageHash;
  }

  lemma EndsByPorts(cfg: Config, tries: seq<Trie>, st: Subtable, f: Bits, wc: Bits)
    requires ValidConfig(cfg) && SubtableOk(cfg, st) && IsFlow(cfg, f) && |tries| == |cfg.fields| && IsFlow(cfg, wc)
    requires StagesHit(cfg, st, f, |st.cuts|) && st.portsLen > 0 && AllPass(cfg, tries, st, 0, cfg.words, f, wc)
    ensures
      var bits := Lookup(st.portsTrie, MaskedPorts(cfg, st, f)).bits;
      EndsAt(cfg, tries, st, f, wc, FoldButPorts(cfg, wc, st.mask, bits), [], ByPorts)
  {
    hide StagesHit, Lookup, MaskedPorts;
    FoldLeavesPorts(cfg, wc, st.mask, Lookup(st.portsTrie, MaskedPorts(cfg, st, f)).bits);
  }

  lemma EndsByMask(cfg: Config, tries: seq<Trie>, st: Subtable, f: Bits, wc: Bits, wc': Bits, tail: seq<Match>)
    requires ValidConfig(cfg) && SubtableOk(cfg, st) && IsFlow(cfg, f) && |tries| == |cfg.fields| && |wc| == |wc'| == |f|
    requires StagesHit(cfg, st, f, |st.cuts|) && (tail != [] || st.portsLen == 0)
    requires AllPass(cfg, tries, st, 0, cfg.words, f, wc)
    ensures EndsAt(cfg, tries, st, f, wc, wc', tail, ByMask)
  {
  }

  lemma FoldLeavesPorts(cfg: Config, wc: Bits, mask: Bits, bits: nat)
    requires ValidConfig(cfg) && IsFlow(cfg, wc) && IsFlow(cfg, mask)
    ensures forall b :: cfg.ports + bits <= b < cfg.ports + PORT_BITS ==> FoldButPorts(cfg, wc, mask, bits)[b] == wc[b]
  {
  }

  lemma FoldFrom(wc: Bits, mask: Bits, lo: nat)
    requires |wc| == |mask| && lo <= |wc|
    ensures Within(wc, Fold(wc, mask, lo)) && OnlyFrom(wc, Fold(wc, mask, lo), mask)
    ensures lo == |wc| ==> Within(mask, Fold(wc, mask, lo))
  {
  }

  /** How the lookup in a subtable ends: a trie rules the stage out, the index of a stage has no such hash, the ports
      trie shows which ports bits matter to a miss, or the whole mask matters. */
  datatype Exit = ByTrie(stage: nat) | ByStage(stage: nat) | ByPorts | ByMask

  function StageStart(st: Subtable, i: nat): nat
    requires i <= |st.cuts|
  {
    if i == 0 then 0 else st.cuts[i - 1]
  }

  function StageEnd(cfg: Config, st: Subtable, i: nat): nat
    requires i <= |st.cuts|
  {
    if i < |st.cuts| then st.cuts[i] else cfg.words
  }

  /** The indices of the stages before the `i`-th have the flow's hash. */
  predicate StagesHit(cfg: Config, st: Subtable, f: Bits, i: nat)
    requires ValidConfig(cfg) && SubtableOk(cfg, st) && IsFlow(cfg, f) && i <= |st.cuts|
  {
    forall k :: 0 <= k < i ==> StageHash(cfg.hashing, f, st.mask, st.cuts[k]) in st.indices[k]
  }

  /** The mask gains no bit from the `n`-th on. */
  predicate GainsBelow(wc: Bits, wc': Bits, n: nat) {
    |wc| == |wc'| && forall b :: n <= b < |wc| ==> wc'[b] == wc[b]
  }

  /** What the mask gains is no more than the way the lookup ends calls for. */
  ghost predicate EndsAt(cfg: Config, tries: seq<Trie>, st: Subtable, f: Bits, wc: Bits, wc': Bits, tail: seq<Match>, why: Exit)
    requires ValidConfig(cfg) && SubtableOk(cfg, st) && IsFlow(cfg, f) && |tries| == |cfg.fields| && |wc| == |wc'| == |f|
  {
    match why
    case ByTrie(i) =>
      && tail == [] && i <= |st.cuts| && StagesHit(cfg, st, f, i)
      && exists j :: 0 <= j < |cfg.fields| &&
           RulesOut(cfg, tries, st, j, StageStart(st, i), StageEnd(cfg, st, i), f, wc, wc', WORD * StageStart(st, i))
    case ByStage(i) =>
      && tail == [] && i < |st.cuts| && AllPass(cfg, tries, st, 0, st.cuts[i], f, wc) && StagesHit(cfg, st, f, i)
      && StageHash(cfg.hashing, f, st.mask, st.cuts[i]) !in st.indices[i]
      && GainsBelow(wc, wc', WORD * st.cuts[i])
    case ByPorts =>
      && tail == [] && st.portsLen > 0 && StagesHit(cfg, st, f, |st.cuts|) && AllPass(cfg, tries, st, 0, cfg.words, f, wc)
      && forall b :: cfg.ports + Lookup(st.portsTrie, MaskedPorts(cfg, st, f)).bits <= b < cfg.ports + PORT_BITS ==>
           wc'[b] == wc[b]
    case ByMask =>
      && StagesHit(cfg, st, f, |st.cuts|) && AllPass(cfg, tries, st, 0, cfg.words, f, wc)
      && (tail != [] || st.portsLen == 0)
  }

  /** Looks `f` up in a subtable and un-wildcards what the answer depends on. */
  method FindMatchWc(cfg: Config, tries: seq<Trie>, st: Subtable, version: nat, f: Bits, ctx: seq<TrieCtx>, wc: Bits)
    returns (tail: seq<Match>, ctx': seq<TrieCtx>, wc': Bits, ghost why: Exit)
    requires ValidConfig(cfg) && SubtableOk(cfg, st) && TriesCover(cfg, tries, st)
    requires IsFlow(cfg, f) && IsFlow(cfg, wc) && CtxOk(cfg, tries, ctx, f)
    ensures CtxOk(cfg, tries, ctx', f) && Within(wc, wc') && OnlyFrom(wc, wc', st.mask)
    ensures Decided(st, f, version, wc', tail)
    ensures EndsAt(cfg, tries, st, f, wc, wc', tail, why)
  {
    hide Decided, CtxOk, Fold, FoldButPorts, OnlyFrom, Within, NoHead, EndsAt, RulesOut, AllPass;
    NonePassed(cfg, tries, st, f, wc);
    var hash, offset, basis, lo, skip := 0, 0, 0, 0, false;
    ctx' := ctx;
    for i := 0 to |st.cuts|
      invariant 0 <= lo <= cfg.words && (i < |st.cuts| ==> lo <= st.cuts[i]) && (i > 0 ==> lo == st.cuts[i - 1])
      invariant offset == MapSize(st.mask, lo) && basis == HashWords(cfg.hashing, 0, f, st.mask, 0, lo)
      invariant CtxOk(cfg, tries, ctx', f) && lo == StageStart(st, i) && StagesHit(cfg, st, f, i)
      invariant AllPass(cfg, tries, st, 0, lo, f, wc)
    {
      var hi := st.cuts[i];
      skip, ctx', wc' := CheckTries(cfg, tries, st, ctx', lo, hi, f, wc);
      if skip {
        SkipDecided(st, f, version, wc, wc', WORD * lo);
        ghost var j :| 0 <= j < |cfg.fields| && RulesOut(cfg, tries, st, j, lo, hi, f, wc, wc', 0);
        EndsByTrie(cfg, tries, st, f, wc, wc', i, j);
        return [], ctx', Fold(wc', st.mask, WORD * lo), ByTrie(i);
      }
      PassOn(cfg, tries, st, 0, lo, hi, f, wc);
      hash, offset, basis := FlowHashRange(cfg.hashing, f, st.mask, lo, hi, offset, basis);
      if hash !in st.indices[i] {
        StageDecided(cfg, st, i, f, version, wc);
        FoldFrom(wc, st.mask, WORD * hi);
        EndsByStage(cfg, tries, st, f, wc, i);
        return [], ctx', Fold(wc, st.mask, WORD * hi), ByStage(i);
      }
      lo := hi;
    }
    skip, ctx', wc' := CheckTries(cfg, tries, st, ctx', lo, cfg.words, f, wc);
    if skip {
      SkipDecided(st, f, version, wc, wc', WORD * lo);
      ghost var j :| 0 <= j < |cfg.fields| && RulesOut(cfg, tries, st, j, lo, cfg.words, f, wc, wc', 0);
      EndsByTrie(cfg, tries, st, f, wc, wc', |st.cuts|, j);
      return [], ctx', Fold(wc', st.mask, WORD * lo), ByTrie(|st.cuts|);
    }
    PassOn(cfg, tries, st, 0, lo, cfg.words, f, wc);
    hash, offset, basis := FlowHashRange(cfg.hashing, f, st.mask, lo, cfg.words, offset, basis);
    tail := FindMatch(cfg, st, version, f, hash);
    if tail == [] && st.portsLen > 0 {
      var found := Lookup(st.portsTrie, MaskedPorts(cfg, st, f));
      PortsDecided(cfg, st, f, version, wc);
      EndsByPorts(cfg, tries, st, f, wc);
      return tail, ctx', FoldButPorts(cfg, wc, st.mask, found.bits), ByPorts;
    }
    wc' := Fold(wc, st.mask, WORD * cfg.words);
    FoldFrom(wc, st.mask, WORD * cfg.words);
    MaskDecided(st, f, version, wc');
    why := ByMask;
    EndsByMask(cfg, tries, st, f, wc, wc', tail);
  }
}
