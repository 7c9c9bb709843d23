/** Rules, the lists of equal rules, and the subtables that index them by mask. */
module Subtables {
  import opened Bits
  import opened Flows
  import opened PrefixTrie

  const VERSION_NOT_REMOVED := 0xFFFF_FFFF_FFFF_FFFF
  const PORT_BITS := 32
  const CLS_MAX_INDICES := 3

  /** A field with a prefix trie: its place in the flow and its prerequisites, any predicate. */
  datatype Field = Field(ofs: nat, width: nat, prereqs: Bits -> bool)

  /** What does not change in the life of a classifier: the size of a flow in words, the ends of the
      lookup stages, the trie fields, and where a flow holds its ports and its conjunction id. */
  datatype Config = Config(words: nat, segments: seq<nat>, hashing: Hashing, fields: seq<Field>,
                           ports: nat, conjId: nat)

  predicate ValidConfig(cfg: Config) {
    && |cfg.segments| <= CLS_MAX_INDICES
    && (forall i :: 0 <= i < |cfg.segments| ==> cfg.segments[i] < cfg.words)
    && (forall i, j :: 0 <= i < j < |cfg.segments| ==> cfg.segments[i] <= cfg.segments[j])
    && (forall j :: 0 <= j < |cfg.fields| ==>
          cfg.fields[j].width > 0 && cfg.fields[j].ofs + cfg.fields[j].width <= WORD * cfg.words)
    && cfg.ports + PORT_BITS <= WORD * cfg.words
    && cfg.conjId + 32 <= WORD * cfg.words
  }

  predicate IsFlow(cfg: Config, f: Bits) {
    |f| == WORD * cfg.words
  }

  datatype Conjunction = Conjunction(id: nat, clause: nat, nClauses: nat)

  /** OpenFlow priorities. */
  type Priority = p: int | 0 <= p <= 0xFFFF

  /** A rule in the classifier.  `id` stands for the rule's address. */
  datatype Match = Match(id: nat, priority: Priority, addVersion: nat, removeVersion: nat, conjs: seq<Conjunction>) {
    predicate VisibleIn(version: nat) {
      addVersion <= version < removeVersion
    }

    predicate EventuallyInvisible() {
      removeVersion < VERSION_NOT_REMOVED
    }
  }

  /** The rules with one value of the masked fields, in order of decreasing priority. */
  datatype Head = Head(flow: Bits, list: seq<Match>)

  /** `cuts` are the ends of the stages that have an index; the last stage runs to the end of the
      flow.  `triePlen` gives the mask's prefix length on each trie field, 0 for none. */
  datatype Subtable = Subtable(mask: Bits, cuts: seq<nat>, triePlen: seq<nat>, portsLen: nat,
                               heads: seq<Head>, indices: seq<multiset<nat>>, portsTrie: Trie,
                               maxPriority: int, maxCount: nat)

  // ----- what a lookup in one subtable means

  /** The list from its first visible rule on, or nothing. */
  function VisibleFrom(list: seq<Match>, version: nat): (r: seq<Match>)
    ensures |r| <= |list| && r == list[|list| - |r|..]
    ensures r != [] ==> r[0].VisibleIn(version)
    ensures forall i :: 0 <= i < |list| - |r| ==> !list[i].VisibleIn(version)
  {
    if list == [] then []
    else if list[0].VisibleIn(version) then list
    else VisibleFrom(list[1..], version)
  }

  function FindHead(heads: seq<Head>, key: Bits, version: nat): seq<Match> {
    if heads == [] then []
    else
      var tail := VisibleFrom(heads[0].list, version);
      if heads[0].flow == key && tail != [] then tail else FindHead(heads[1..], key, version)
  }

  /** The visible rules of the subtable that match `f`, best first: the masked value decides. */
  function SubTail(st: Subtable, f: Bits, version: nat): seq<Match>
    requires |f| == |st.mask|
  {
    FindHead(st.heads, And(f, st.mask), version)
  }

  // ----- stages

  /** The mask's map has a word from `lo` up to `hi`. */
  predicate HasWord(mask: Bits, lo: nat, hi: nat)
    requires WORD * hi <= |mask|
  {
    exists w: nat :: lo <= w < hi && InMap(mask, w)
  }

  /** The stages go up through the words. */
  predicate Ascending(cfg: Config, cuts: seq<nat>) {
    && (forall i :: 0 <= i < |cuts| ==> cuts[i] < cfg.words)
    && (forall i, j :: 0 <= i < j < |cuts| ==> cuts[i] < cuts[j])
  }

  /** Every stage adds mask bits: the first, each one that follows, and the last, which has no
      index of its own. */
  predicate StagesOk(cfg: Config, mask: Bits, cuts: seq<nat>)
    requires IsFlow(cfg, mask)
  {
    && Ascending(cfg, cuts)
    && (cuts != [] ==> Spread(mask, cuts + [cfg.words]))
  }

  /** There is a word before each bound and between any two. */
  predicate Spread(mask: Bits, bounds: seq<nat>)
    requires forall i :: 0 <= i < |bounds| ==> WORD * bounds[i] <= |mask|
  {
    && (forall i :: 0 <= i < |bounds| ==> HasWord(mask, 0, bounds[i]))
    && (forall i, j :: 0 <= i < j < |bounds| ==> HasWord(mask, bounds[i], bounds[j]))
  }

  lemma SpreadAppend(mask: Bits, bounds: seq<nat>, prev: nat, hi: nat)
    requires prev <= hi && WORD * hi <= |mask| && forall i :: 0 <= i < |bounds| ==> bounds[i] <= prev
    requires Spread(mask, bounds) && HasWord(mask, prev, hi)
    ensures Spread(mask, bounds + [hi])
  {
    HasWordWider(mask, 0, prev, hi);
    forall i | 0 <= i < |bounds| ensures HasWord(mask, bounds[i], hi) {
      HasWordWider(mask, bounds[i], prev, hi);
    }
  }

  lemma HasWordWider(mask: Bits, lo: nat, mid: nat, hi: nat)
    requires lo <= mid && WORD * hi <= |mask| && HasWord(mask, mid, hi)
    ensures HasWord(mask, lo, hi)
  {
  }

  lemma SpreadWiden(mask: Bits, bounds: seq<nat>, hi: nat)
    requires bounds != [] && WORD * hi <= |mask| && forall i :: 0 <= i < |bounds| ==> bounds[i] <= hi
    requires Spread(mask, bounds)
    ensures Spread(mask, bounds[..|bounds| - 1] + [hi])
  {
    var n := |bounds| - 1;
    assert HasWord(mask, 0, bounds[n]);
    forall i | 0 <= i < n ensures HasWord(mask, bounds[i], hi) {
      assert HasWord(mask, bounds[i], bounds[n]);
    }
  }

  function LastCut(cuts: seq<nat>): nat {
    if cuts == [] then 0 else cuts[|cuts| - 1]
  }

  lemma NoWords(mask: Bits, at: nat)
    requires WORD * at <= |mask|
    ensures !HasWord(mask, at, at)
  {
  }

  lemma NoWordsJoin(mask: Bits, lo: nat, mid: nat, hi: nat)
    requires lo <= mid <= hi && WORD * hi <= |mask| && !HasWord(mask, lo, mid) && !HasWord(mask, mid, hi)
    ensures !HasWord(mask, lo, hi)
  {
  }

  function SegmentStart(cfg: Config, i: nat): nat
    requires i <= |cfg.segments|
  {
    if i == 0 then 0 else cfg.segments[i - 1]
  }

  /** The mask has a word in the `i`-th segment. */
  predicate Stage(cfg: Config, mask: Bits, i: nat)
    requires i < |cfg.segments| && WORD * cfg.segments[i] <= |mask|
  {
    HasWord(mask, SegmentStart(cfg, i), cfg.segments[i])
  }

  /** The stages for the segments before the `i`-th are `cuts`. */
  ghost predicate StagedTo(cfg: Config, mask: Bits, cuts: seq<nat>, i: nat)
    requires ValidConfig(cfg) && IsFlow(cfg, mask) && i <= |cfg.segments|
  {
    && |cuts| <= i && Ascending(cfg, cuts) && Spread(mask, cuts)
    && (forall k :: 0 <= k < |cuts| ==> cuts[k] in cfg.segments && cuts[k] <= SegmentStart(cfg, i))
    && (forall k :: 0 <= k < i && Stage(cfg, mask, k) ==> cfg.segments[k] in cuts)
    && !HasWord(mask, LastCut(cuts), SegmentStart(cfg, i))
  }

  lemma StagedNext(cfg: Config, mask: Bits, cuts: seq<nat>, i: nat)
    requires ValidConfig(cfg) && IsFlow(cfg, mask) && i < |cfg.segments| && StagedTo(cfg, mask, cuts, i)
    ensures StagedTo(cfg, mask, if Stage(cfg, mask, i) then cuts + [cfg.segments[i]] else cuts, i + 1)
  {
    hide HasWord, Spread, StagedTo;
    if Stage(cfg, mask, i) {
      StagedMore(cfg, mask, cuts, i);
    } else {
      StagedSame(cfg, mask, cuts, i);
    }
  }

  lemma StagedMore(cfg: Config, mask: Bits, cuts: seq<nat>, i: nat)
    requires ValidConfig(cfg) && IsFlow(cfg, mask) && i < |cfg.segments| && StagedTo(cfg, mask, cuts, i)
    requires Stage(cfg, mask, i)
    ensures StagedTo(cfg, mask, cuts + [cfg.segments[i]], i + 1)
  {
    hide HasWord, Spread;
    var prev, seg := SegmentStart(cfg, i), cfg.segments[i];
    HasWordAhead(mask, prev, seg);
    SpreadAppend(mask, cuts, prev, seg);
    NoWords(mask, seg);
    assert seg in cfg.segments && seg in cuts + [seg];
    forall k | 0 <= k < i + 1 && Stage(cfg, mask, k) ensures cfg.segments[k] in cuts + [seg] {
      assert k < i ==> cfg.segments[k] in cuts;
    }
  }

  lemma StagedSame(cfg: Config, mask: Bits, cuts: seq<nat>, i: nat)
    requires ValidConfig(cfg) && IsFlow(cfg, mask) && i < |cfg.segments| && StagedTo(cfg, mask, cuts, i)
    requires !Stage(cfg, mask, i)
    ensures StagedTo(cfg, mask, cuts, i + 1)
  {
    hide HasWord, Spread;
    NoWordsJoin(mask, LastCut(cuts), SegmentStart(cfg, i), cfg.segments[i]);
  }

  lemma HasWordAhead(mask: Bits, lo: nat, hi: nat)
    requires WORD * hi <= |mask| && HasWord(mask, lo, hi)
    ensures lo < hi
  {
  }

  /** All that is promised about the stages of a mask. */
  ghost predicate AllStaged(cfg: Config, mask: Bits, cuts: seq<nat>)
    requires ValidConfig(cfg) && IsFlow(cfg, mask)
  {
    && StagesOk(cfg, mask, cuts) && |cuts| <= CLS_MAX_INDICES
    && (forall cut :: cut in cuts ==> cut in cfg.segments)
    && (forall i :: 0 <= i < |cfg.segments| && Stage(cfg, mask, i) && HasWord(mask, cfg.segments[i], cfg.words) ==>
          cfg.segments[i] in cuts)
  }

  lemma StagedNone(cfg: Config, mask: Bits)
    requires ValidConfig(cfg) && IsFlow(cfg, mask)
    ensures StagedTo(cfg, mask, [], 0)
  {
  }

  lemma LastNeeded(cfg: Config, mask: Bits, cuts: seq<nat>)
    requires ValidConfig(cfg) && IsFlow(cfg, mask) && StagedTo(cfg, mask, cuts, |cfg.segments|)
    requires cuts == [] || HasWord(mask, SegmentStart(cfg, |cfg.segments|), cfg.words)
    ensures AllStaged(cfg, mask, cuts)
  {
    hide HasWord, Spread;
    var end := SegmentStart(cfg, |cfg.segments|);
    if HasWord(mask, end, cfg.words) {
      HasWordAhead(mask, end, cfg.words);
      SpreadAppend(mask, cuts, end, cfg.words);
    }
  }

  /** The ends of the segments that get an index: each one in which the mask has a word, except that the
      last stage with words needs none. */
  method InitStages(cfg: Config, mask: Bits) returns (cuts: seq<nat>)
    requires ValidConfig(cfg) && IsFlow(cfg, mask)
    ensures AllStaged(cfg, mask, cuts)
  {
    hide HasWord, Spread, StagedTo, AllStaged;
    StagedNone(cfg, mask);
    cuts := [];
    var prev: nat := 0;
    for i := 0 to |cfg.segments|
      invariant prev == SegmentStart(cfg, i) && StagedTo(cfg, mask, cuts, i)
    {
      var seg := cfg.segments[i];
      StagedNext(cfg, mask, cuts, i);
      if HasWord(mask, prev, seg) {
        cuts := cuts + [seg];
      }
      prev := seg;
    }
    if !HasWord(mask, prev, cfg.words) && cuts != [] {
      LastNotNeeded(cfg, mask, cuts);
      cuts := cuts[..|cuts| - 1];
    } else {
      LastNeeded(cfg, mask, cuts);
    }
  }

  /** Without words after the segments, the last stage with words runs to the end of the flow. */
  lemma LastNotNeeded(cfg: Config, mask: Bits, cuts: seq<nat>)
    requires ValidConfig(cfg) && IsFlow(cfg, mask) && StagedTo(cfg, mask, cuts, |cfg.segments|) && cuts != []
    requires !HasWord(mask, SegmentStart(cfg, |cfg.segments|), cfg.words)
    ensures AllStaged(cfg, mask, cuts[..|cuts| - 1])
  {
    hide HasWord, Spread;
    NoWordsJoin(mask, LastCut(cuts), SegmentStart(cfg, |cfg.segments|), cfg.words);
    SpreadWiden(mask, cuts, cfg.words);
    forall i | 0 <= i < |cfg.segments| && Stage(cfg, mask, i) && HasWord(mask, cfg.segments[i], cfg.words)
      ensures cfg.segments[i] in cuts[..|cuts| - 1]
    {
      var k :| 0 <= k < |cuts| && cuts[k] == cfg.segments[i];
      assert cuts[..|cuts| - 1][k] == cuts[k];
    }
  }

  // ----- what every change to the classifier keeps

  predicate Sorted(list: seq<Match>) {
    forall i, j :: 0 <= i < j < |list| ==> list[i].priority >= list[j].priority
  }

  predicate HeadOk(mask: Bits, h: Head) {
    |h.flow| == |mask| && And(h.flow, mask) == h.flow && h.list != [] && Sorted(h.list)
  }

  predicate HeadsOk(mask: Bits, heads: seq<Head>) {
    && (forall j :: 0 <= j < |heads| ==> HeadOk(mask, heads[j]))
    && (forall j, k :: 0 <= j < k < |heads| ==> heads[j].flow != heads[k].flow)
  }

  /** The hash of every head at the stage that ends at `cut`. */
  function StageHashes(cfg: Config, mask: Bits, cut: nat, heads: seq<Head>): (r: seq<nat>)
    requires WORD * cut <= |mask| && HeadsOk(mask, heads)
    ensures |r| == |heads|
    ensures forall j :: 0 <= j < |r| ==> r[j] == StageHash(cfg.hashing, heads[j].flow, mask, cut)
  {
    seq(|heads|, j requires 0 <= j < |heads| => StageHash(cfg.hashing, heads[j].flow, mask, cut))
  }

  function PrefixOf(flow: Bits, ofs: nat, len: nat): Bits {
    if ofs + len <= |flow| then flow[ofs..ofs + len] else []
  }

  /** The `len` bits that every head has from `ofs` on. */
  function Prefixes(heads: seq<Head>, ofs: nat, len: nat): (r: seq<Bits>)
    ensures |r| == |heads| && forall j :: 0 <= j < |r| ==> r[j] == PrefixOf(heads[j].flow, ofs, len)
  {
    seq(|heads|, j requires 0 <= j < |heads| => PrefixOf(heads[j].flow, ofs, len))
  }

  /** Each stage index counts exactly the heads with that staged hash. */
  predicate IndicesOk(cfg: Config, st: Subtable)
    requires IsFlow(cfg, st.mask) && Ascending(cfg, st.cuts) && HeadsOk(st.mask, st.heads)
  {
    && |st.indices| == |st.cuts|
    && forall i :: 0 <= i < |st.cuts| ==>
         st.indices[i] == multiset(StageHashes(cfg, st.mask, st.cuts[i], st.heads))
  }

  /** The bits of `f` that hold the ports. */
  function Ports(cfg: Config, f: Bits): (p: Bits)
    requires ValidConfig(cfg) && IsFlow(cfg, f)
    ensures |p| == PORT_BITS && forall i :: 0 <= i < PORT_BITS ==> p[i] == f[cfg.ports + i]
  {
    f[cfg.ports..cfg.ports + PORT_BITS]
  }

  function FieldBits(cfg: Config, j: nat, f: Bits): (p: Bits)
    requires ValidConfig(cfg) && IsFlow(cfg, f) && j < |cfg.fields|
    ensures |p| == cfg.fields[j].width && forall i :: 0 <= i < |p| ==> p[i] == f[cfg.fields[j].ofs + i]
  {
    f[cfg.fields[j].ofs..cfg.fields[j].ofs + cfg.fields[j].width]
  }

  ghost predicate Holds(t: Trie, m: multiset<Bits>, width: nat) {
    WellFormed(t) && Depth(t) <= width && forall p :: Count(t, p) == m[p]
  }

  /** What a trie holds for a subtable whose mask has a prefix of `len` bits at `ofs`. */
  function PrefixSet(heads: seq<Head>, ofs: nat, len: nat): multiset<Bits> {
    if len == 0 then multiset{} else multiset(Prefixes(heads, ofs, len))
  }

  /** The ports trie holds exactly the heads' ports. */
  ghost predicate PortsOk(cfg: Config, st: Subtable)
    requires ValidConfig(cfg) && IsFlow(cfg, st.mask) && HeadsOk(st.mask, st.heads)
  {
    && st.portsLen == SignificantLength(Ports(cfg, st.mask))
    && Holds(st.portsTrie, PrefixSet(st.heads, cfg.ports, st.portsLen), PORT_BITS)
  }

  predicate PlensOk(cfg: Config, st: Subtable)
    requires ValidConfig(cfg) && IsFlow(cfg, st.mask)
  {
    && |st.triePlen| == |cfg.fields|
    && forall j :: 0 <= j < |cfg.fields| ==> st.triePlen[j] == PrefixLength(FieldBits(cfg, j, st.mask))
  }

  /** What a subtable holds about itself. */
  ghost predicate SubtableOk(cfg: Config, st: Subtable)
    requires ValidConfig(cfg)
  {
    && IsFlow(cfg, st.mask)
    && StagesOk(cfg, st.mask, st.cuts)
    && HeadsOk(st.mask, st.heads)
    && IndicesOk(cfg, st)
    && PortsOk(cfg, st)
    && PlensOk(cfg, st)
  }

  /** The prefix of every head is in the tries of the fields that the mask matches by prefix. */
  ghost predicate TriesCover(cfg: Config, tries: seq<Trie>, st: Subtable)
    requires ValidConfig(cfg) && SubtableOk(cfg, st)
  {
    && |tries| == |cfg.fields|
    && (forall j :: 0 <= j < |tries| ==> WellFormed(tries[j]) && Depth(tries[j]) <= cfg.fields[j].width)
    && forall j, k :: 0 <= j < |tries| && 0 <= k < |st.heads| && st.triePlen[j] > 0 ==>
         Count(tries[j], FieldBits(cfg, j, st.heads[k].flow)[..st.triePlen[j]]) > 0
  }
}
