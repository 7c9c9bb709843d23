/** Changes to one subtable: a head comes, goes, or gets another list of equal rules.  The indices, the
    ports trie and the heads stay in step. */
module SubtableUpdate {
  import opened Bits
  import opened Flows
  import opened PrefixTrie
  import opened Subtables
  import opened Sums
  import opened Wrappers

  ghost predicate HashesAt(cfg: Config, st: Subtable, flow: Bits, ihash: seq<nat>)
    requires ValidConfig(cfg) && IsFlow(cfg, st.mask) && IsFlow(cfg, flow) && Ascending(cfg, st.cuts)
  {
    |ihash| <= |st.cuts| && forall i :: 0 <= i < |ihash| ==> ihash[i] == StageHash(cfg.hashing, flow, st.mask, st.cuts[i])
  }

  /** The hashes of a rule at every stage that has an index. */
  method RuleHashes(cfg: Config, st: Subtable, flow: Bits) returns (ihash: seq<nat>)
    requires ValidConfig(cfg) && SubtableOk(cfg, st) && IsFlow(cfg, flow)
    ensures |ihash| == |st.cuts| && HashesAt(cfg, st, flow, ihash)
  {
    hide IndicesOk, PortsOk, HeadsOk, PlensOk, Spread, Packed, HashWords, MapSize, StageHash;
    NothingHashed(cfg, st, flow);
    var p, q := Packed(flow, st.mask, 0, cfg.words), Packed(st.mask, st.mask, 0, cfg.words);
    ihash := [];
    var basis, offset, lo := 0, 0, 0;
    for i := 0 to |st.cuts|
      invariant 0 <= lo <= cfg.words && (forall k :: i <= k < |st.cuts| ==> lo <= st.cuts[k])
      invariant offset == MapSize(st.mask, lo) && basis == HashWords(cfg.hashing, 0, flow, st.mask, 0, lo)
      invariant |ihash| == i && HashesAt(cfg, st, flow, ihash)
    {
      var hi := st.cuts[i];
      PackedRange(flow, st.mask, lo, hi, cfg.words);
      var n := MapSize(st.mask, hi) - MapSize(st.mask, lo);
      var hash;
      hash, offset, basis := RuleHashRange(cfg.hashing, p, q, n, offset, basis, flow, st.mask, lo, hi, cfg.words);
      ihash := ihash + [hash];
      lo := hi;
    }
  }

  lemma NothingHashed(cfg: Config, st: Subtable, flow: Bits)
    requires ValidConfig(cfg) && IsFlow(cfg, st.mask) && IsFlow(cfg, flow)
    ensures MapSize(st.mask, 0) == 0 && HashWords(cfg.hashing, 0, flow, st.mask, 0, 0) == 0
  {
  }

  lemma HeadsAppend(cfg: Config, mask: Bits, heads: seq<Head>, h: Head)
    requires HeadsOk(mask, heads) && HeadOk(mask, h) && forall k :: 0 <= k < |heads| ==> heads[k].flow != h.flow
    ensures HeadsOk(mask, heads + [h])
    ensures forall cut: nat :: WORD * cut <= |mask| ==>
      StageHashes(cfg, mask, cut, heads + [h]) == StageHashes(cfg, mask, cut, heads) + [StageHash(cfg.hashing, h.flow, mask, cut)]
    ensures forall ofs: nat, len: nat :: Prefixes(heads + [h], ofs, len) == Prefixes(heads, ofs, len) + [PrefixOf(h.flow, ofs, len)]
  {
  }

  lemma HeadsWithout(cfg: Config, mask: Bits, heads: seq<Head>, i: nat)
    requires HeadsOk(mask, heads) && i < |heads|
    ensures HeadsOk(mask, heads[..i] + heads[i + 1..])
    ensures forall cut: nat :: WORD * cut <= |mask| ==>
      var hs := StageHashes(cfg, mask, cut, heads);
      StageHashes(cfg, mask, cut, heads[..i] + heads[i + 1..]) == hs[..i] + hs[i + 1..]
    ensures forall ofs: nat, len: nat ::
      var ps := Prefixes(heads, ofs, len);
      Prefixes(heads[..i] + heads[i + 1..], ofs, len) == ps[..i] + ps[i + 1..]
  {
  }

  lemma HeadsSameFlow(cfg: Config, mask: Bits, heads: seq<Head>, i: nat, list: seq<Match>)
    requires HeadsOk(mask, heads) && i < |heads| && list != [] && Sorted(list)
    ensures HeadsOk(mask, heads[i := Head(heads[i].flow, list)])
    ensures forall cut: nat :: WORD * cut <= |mask| ==>
      StageHashes(cfg, mask, cut, heads[i := Head(heads[i].flow, list)]) == StageHashes(cfg, mask, cut, heads)
    ensures forall ofs: nat, len: nat ::
      Prefixes(heads[i := Head(heads[i].flow, list)], ofs, len) == Prefixes(heads, ofs, len)
  {
  }

  /** What the ports trie becomes when a head's ports are stored. */
  lemma TrieGains(t: Trie, m: multiset<Bits>, p: Bits, width: nat)
    requires Holds(t, m, width) && |p| <= width
    ensures Holds(Insert(t, p), m + multiset{p}, width)
  {
    hide Insert, Count, WellFormed, Depth;
    InsertShape(t, p);
    forall q ensures Count(Insert(t, p), q) == (m + multiset{p})[q] {
      InsertStores(t, p, q);
    }
  }

  lemma TrieLoses(t: Trie, m: multiset<Bits>, p: Bits, width: nat)
    requires Holds(t, m, width) && p in m
    ensures Holds(Remove(t, p), m - multiset{p}, width)
  {
    hide Remove, Count, WellFormed, Depth;
    RemoveShape(t, p);
    forall q ensures Count(Remove(t, p), q) == (m - multiset{p})[q] {
      RemoveStores(t, p, q);
    }
  }

  method AddHead(cfg: Config, st: Subtable, h: Head) returns (st': Subtable)
    requires ValidConfig(cfg) && SubtableOk(cfg, st) && HeadOk(st.mask, h)
    requires forall k :: 0 <= k < |st.heads| ==> st.heads[k].flow != h.flow
    ensures SubtableOk(cfg, st')
    ensures st' == st.(heads := st.heads + [h], indices := st'.indices, portsTrie := st'.portsTrie)
  {
    hide Holds, Count, Insert, SignificantLength, PrefixLength, Spread, StageHash;
    var ports := PrefixOf(h.flow, cfg.ports, st.portsLen);
    var portsTrie := if st.portsLen > 0 then Insert(st.portsTrie, ports) else st.portsTrie;
    var ihash := RuleHashes(cfg, st, h.flow);
    var indices := [];
    for i := 0 to |ihash|
      invariant |indices| == i
      invariant forall k :: 0 <= k < i ==> indices[k] == st.indices[k] + multiset{ihash[k]}
    {
      indices := indices + [st.indices[i] + multiset{ihash[i]}];
    }
    st' := st.(heads := st.heads + [h], indices := indices, portsTrie := portsTrie);
    HeadsAppend(cfg, st.mask, st.heads, h);
    if st.portsLen > 0 {
      TrieGains(st.portsTrie, PrefixSet(st.heads, cfg.ports, st.portsLen), ports, PORT_BITS);
    }
  }

  method DropHead(cfg: Config, st: Subtable, k: nat) returns (st': Subtable)
    requires ValidConfig(cfg) && SubtableOk(cfg, st) && k < |st.heads|
    ensures SubtableOk(cfg, st')
    ensures st' == st.(heads := st.heads[..k] + st.heads[k + 1..], indices := st'.indices, portsTrie := st'.portsTrie)
  {
    hide Holds, Count, Remove, SignificantLength, PrefixLength, Spread, StageHash, PrefixSet, IndicesOk;
    IndexEach(cfg, st);
    var flow := st.heads[k].flow;
    var ports := PrefixOf(flow, cfg.ports, st.portsLen);
    var portsTrie := if st.portsLen > 0 then Remove(st.portsTrie, ports) else st.portsTrie;
    var ihash := RuleHashes(cfg, st, flow);
    var indices := [];
    for i := 0 to |ihash|
      invariant |indices| == i
      invariant forall j :: 0 <= j < i ==> indices[j] == st.indices[j] - multiset{ihash[j]}
    {
      indices := indices + [st.indices[i] - multiset{ihash[i]}];
    }
    st' := st.(heads := st.heads[..k] + st.heads[k + 1..], indices := indices, portsTrie := portsTrie);
    HeadsWithout(cfg, st.mask, st.heads, k);
    IndicesLose(cfg, st, st', k, ihash);
    PortsLose(cfg, st, k);
  }

  lemma IndicesLose(cfg: Config, st: Subtable, st': Subtable, k: nat, ihash: seq<nat>)
    requires ValidConfig(cfg) && IsFlow(cfg, st.mask) && Ascending(cfg, st.cuts)
    requires HeadsOk(st.mask, st.heads) && HeadsOk(st.mask, st'.heads) && IndicesOk(cfg, st)
    requires k < |st.heads| && IsFlow(cfg, st.heads[k].flow) && |ihash| == |st.cuts|
    requires HashesAt(cfg, st, st.heads[k].flow, ihash)
    requires st'.mask == st.mask && st'.cuts == st.cuts && st'.heads == st.heads[..k] + st.heads[k + 1..]
    requires |st'.indices| == |ihash| && forall j :: 0 <= j < |ihash| ==> st'.indices[j] == st.indices[j] - multiset{ihash[j]}
    ensures IndicesOk(cfg, st')
  {
    hide StageHash, HeadOk, StageHashes;
    forall i | 0 <= i < |st.cuts|
      ensures st'.indices[i] == multiset(StageHashes(cfg, st.mask, st.cuts[i], st'.heads))
    {
      StageLoses(cfg, st.mask, st.cuts[i], st.heads, k, st'.heads);
    }
  }

  lemma StageLoses(cfg: Config, mask: Bits, cut: nat, heads: seq<Head>, k: nat, heads': seq<Head>)
    requires WORD * cut <= |mask| && HeadsOk(mask, heads) && HeadsOk(mask, heads') && k < |heads|
    requires heads' == heads[..k] + heads[k + 1..] && |heads[k].flow| == |mask|
    ensures multiset(StageHashes(cfg, mask, cut, heads')) ==
      multiset(StageHashes(cfg, mask, cut, heads)) - multiset{StageHash(cfg.hashing, heads[k].flow, mask, cut)}
  {
    hide StageHash, HeadsOk;
    var hs, hs' := StageHashes(cfg, mask, cut, heads), StageHashes(cfg, mask, cut, heads');
    MultisetWithout(hs, k);
    assert |hs'| == |heads'| == |heads| - 1;
    forall j | 0 <= j < |hs'| ensures hs'[j] == (hs[..k] + hs[k + 1..])[j] {
      assert heads'[j] == if j < k then heads[j] else heads[j + 1];
    }
    assert hs' == hs[..k] + hs[k + 1..];
  }

  lemma IndexEach(cfg: Config, st: Subtable)
    requires ValidConfig(cfg) && SubtableOk(cfg, st)
    ensures |st.indices| == |st.cuts|
  {
  }

  lemma PortsLose(cfg: Config, st: Subtable, k: nat)
    requires k < |st.heads| && Holds(st.portsTrie, PrefixSet(st.heads, cfg.ports, st.portsLen), PORT_BITS)
    ensures
      var p := PrefixOf(st.heads[k].flow, cfg.ports, st.portsLen);
      var t := if st.portsLen > 0 then Remove(st.portsTrie, p) else st.portsTrie;
      Holds(t, PrefixSet(st.heads[..k] + st.heads[k + 1..], cfg.ports, st.portsLen), PORT_BITS)
  {
    hide Holds, Remove;
    var heads', ofs, len := st.heads[..k] + st.heads[k + 1..], cfg.ports, st.portsLen;
    if len > 0 {
      var ps := Prefixes(st.heads, ofs, len);
      MultisetWithout(ps, k);
      assert Prefixes(heads', ofs, len) == ps[..k] + ps[k + 1..];
      TrieLoses(st.portsTrie, PrefixSet(st.heads, ofs, len), ps[k], PORT_BITS);
    }
  }

  /** Another list for the `k`-th head leaves everything that is indexed by flow as it was. */
  lemma SetListOk(cfg: Config, st: Subtable, k: nat, list: seq<Match>)
    requires ValidConfig(cfg) && SubtableOk(cfg, st) && k < |st.heads| && list != [] && Sorted(list)
    ensures SubtableOk(cfg, st.(heads := st.heads[k := Head(st.heads[k].flow, list)]))
  {
    HeadsSameFlow(cfg, st.mask, st.heads, k, list);
  }

  // ----- lists of equal rules

  /** Puts `m` in its place in a list of equal rules: after the rules of higher priority and those of
      its own priority that are on their way out, in place of another rule of its own priority. */
  method MergeRule(list: seq<Match>, m: Match) returns (list': seq<Match>, pos: nat, displaced: Option<Match>)
    requires Sorted(list)
    ensures Sorted(list') && list' != [] && pos <= |list|
    ensures displaced.Some? <==> exists i :: 0 <= i < |list| && list[i].priority == m.priority && !list[i].EventuallyInvisible()
    ensures displaced.Some? ==>
      && pos < |list| && displaced.value == list[pos] && list' == list[pos := m]
      && list[pos].priority == m.priority && !list[pos].EventuallyInvisible()
    ensures displaced.None? ==> list' == list[..pos] + [m] + list[pos..]
  {
    pos := 0;
    while pos < |list|
          && !(m.priority > list[pos].priority
               || (m.priority == list[pos].priority && !list[pos].EventuallyInvisible()))
      invariant 0 <= pos <= |list|
      invariant forall i :: 0 <= i < pos ==>
        list[i].priority > m.priority || (list[i].priority == m.priority && list[i].EventuallyInvisible())
    {
      pos := pos + 1;
    }
    if pos < |list| && list[pos].priority == m.priority {
      displaced := Some(list[pos]);
      list' := list[pos := m];
    } else {
      displaced := None;
      list' := list[..pos] + [m] + list[pos..];
    }
  }

  // ----- the highest priority

  ghost function Top(p: int): Match -> multiset<nat> {
    (m: Match) => if m.priority == p then multiset{0} else multiset{}
  }

  ghost function TopOf(p: int): Head -> multiset<nat> {
    (h: Head) => Sum(h.list, Top(p))
  }

  /** How many rules have priority `p`. */
  ghost function TopCount(heads: seq<Head>, p: int): nat {
    |Sum(heads, TopOf(p))|
  }

  /** `maxPriority` is the highest priority of any rule; `maxCount` never counts more rules than have
      it, though it may count fewer. */
  ghost predicate MaxOk(st: Subtable) {
    && st.heads != []
    && (forall j :: 0 <= j < |st.heads| ==> st.heads[j].list != [] && st.heads[j].list[0].priority <= st.maxPriority)
    && 1 <= st.maxCount <= TopCount(st.heads, st.maxPriority)
  }

  lemma {:induction false} NoneOfPriority(list: seq<Match>, p: int)
    requires forall i :: 0 <= i < |list| ==> list[i].priority != p
    ensures Sum(list, Top(p)) == multiset{}
    decreases |list|
  {
    if list != [] {
      NoneOfPriority(list[..|list| - 1], p);
    }
  }

  lemma {:induction false} NoHeadOfPriority(heads: seq<Head>, p: int)
    requires forall j, i :: 0 <= j < |heads| && 0 <= i < |heads[j].list| ==> heads[j].list[i].priority != p
    ensures Sum(heads, TopOf(p)) == multiset{}
    decreases |heads|
  {
    if heads != [] {
      NoHeadOfPriority(heads[..|heads| - 1], p);
      NoneOfPriority(heads[|heads| - 1].list, p);
    }
  }

  /** `maxPriority` is the priority of some rule, and no rule has a higher one. */
  ghost predicate MaxExact(st: Subtable) {
    && (forall j, i :: 0 <= j < |st.heads| && 0 <= i < |st.heads[j].list| ==>
          st.heads[j].list[i].priority <= st.maxPriority)
    && (exists j :: 0 <= j < |st.heads| && st.heads[j].list != [] && st.heads[j].list[0].priority == st.maxPriority)
  }

  lemma MaxAttained(st: Subtable)
    requires HeadsOk(st.mask, st.heads) && MaxOk(st)
    ensures MaxExact(st)
  {
    assert forall j :: 0 <= j < |st.heads| ==> HeadOk(st.mask, st.heads[j]);
    if forall j :: 0 <= j < |st.heads| ==> st.heads[j].list[0].priority < st.maxPriority {
      assert forall j :: 0 <= j < |st.heads| ==> Sorted(st.heads[j].list);
      NoHeadOfPriority(st.heads, st.maxPriority);
    }
  }

  ghost function Weigh(m: Match, p: int): nat {
    if m.priority == p then 1 else 0
  }

  /** How a change to one list changes the number of rules of a priority. */
  lemma TopUpdate(heads: seq<Head>, k: nat, list: seq<Match>, p: int)
    requires k < |heads|
    ensures TopCount(heads[k := Head(heads[k].flow, list)], p) + |Sum(heads[k].list, Top(p))|
         == TopCount(heads, p) + |Sum(list, Top(p))|
  {
    hide Sum;
    var h, h' := heads[k], Head(heads[k].flow, list);
    SumUpdate(heads, k, h', TopOf(p));
    assert TopOf(p)(h) == Sum(h.list, Top(p)) && TopOf(p)(h') == Sum(list, Top(p));
    assert |Sum(heads[k := h'], TopOf(p)) + TopOf(p)(h)| == |Sum(heads, TopOf(p)) + TopOf(p)(h')|;
  }

  lemma TopMerge(list: seq<Match>, pos: nat, m: Match, p: int)
    ensures pos <= |list| ==> |Sum(list[..pos] + [m] + list[pos..], Top(p))| == |Sum(list, Top(p))| + Weigh(m, p)
    ensures pos < |list| ==>
      |Sum(list[pos := m], Top(p))| + Weigh(list[pos], p) == |Sum(list, Top(p))| + Weigh(m, p)
    ensures pos < |list| ==>
      |Sum(list[..pos] + list[pos + 1..], Top(p))| + Weigh(list[pos], p) == |Sum(list, Top(p))|
  {
    hide Sum;
    if pos <= |list| { SumInsert(list, pos, m, Top(p)); }
    if pos < |list| {
      SumUpdate(list, pos, m, Top(p));
      SumSplit(list, pos, Top(p));
    }
  }

  lemma TopNewHead(heads: seq<Head>, flow: Bits, m: Match, p: int)
    ensures TopCount(heads + [Head(flow, [m])], p) == TopCount(heads, p) + Weigh(m, p)
  {
    var h := Head(flow, [m]);
    assert (heads + [h])[..|heads|] == heads;
    SumOne(m, Top(p));
  }

  lemma TopWithout(heads: seq<Head>, k: nat, p: int)
    requires k < |heads|
    ensures TopCount(heads[..k] + heads[k + 1..], p) + |Sum(heads[k].list, Top(p))| == TopCount(heads, p)
  {
    hide Sum;
    SumSplit(heads, k, TopOf(p));
  }

  /** The subtable's highest priority and count after a rule of priority `p` has been added. */
  function RaiseMax(st: Subtable, p: Priority, first: bool): Subtable {
    if first then st.(maxPriority := p, maxCount := 1)
    else if p == st.maxPriority then st.(maxCount := st.maxCount + 1)
    else if p > st.maxPriority then st.(maxPriority := p, maxCount := 1)
    else st
  }

  /** Goes through the heads for the highest priority; only heads are counted. */
  method Recount(heads: seq<Head>) returns (maxPriority: int, maxCount: nat)
    requires heads != [] && forall j :: 0 <= j < |heads| ==> heads[j].list != []
    ensures forall j :: 0 <= j < |heads| ==> heads[j].list[0].priority <= maxPriority
    ensures 1 <= maxCount <= TopCount(heads, maxPriority)
  {
    hide TopCount;
    maxPriority, maxCount := -0x8000_0000, 0;
    for i := 0 to |heads|
      invariant forall j :: 0 <= j < i ==> heads[j].list[0].priority <= maxPriority
      invariant (i > 0 ==> 1 <= maxCount) && (i == 0 ==> maxCount == 0 && maxPriority < 0)
      invariant maxCount <= TopCount(heads[..i], maxPriority)
    {
      var p := heads[i].list[0].priority;
      TopGrows(heads, i, maxPriority);
      TopGrows(heads, i, p);
      if p > maxPriority {
        maxPriority, maxCount := p, 1;
      } else if p == maxPriority {
        maxCount := maxCount + 1;
      }
    }
    assert heads[..|heads|] == heads;
  }

  lemma TopGrows(heads: seq<Head>, i: nat, p: int)
    requires i < |heads| && heads[i].list != []
    ensures TopCount(heads[..i + 1], p) >= TopCount(heads[..i], p) + if heads[i].list[0].priority == p then 1 else 0
  {
    assert heads[..i + 1][..i] == heads[..i];
    HeadCounts(heads[i].list);
  }

  /** A list counts its first rule. */
  lemma HeadCounts(list: seq<Match>)
    requires list != []
    ensures |Sum(list, Top(list[0].priority))| >= 1
  {
    hide Sum;
    SumSplit(list, 0, Top(list[0].priority));
  }

  // ----- the rules of a subtable

  /** A rule with what it matches. */
  datatype Entry = Entry(mask: Bits, flow: Bits, rule: Match)

  ghost function EntryOf(mask: Bits, flow: Bits): Match -> multiset<Entry> {
    (m: Match) => multiset{Entry(mask, flow, m)}
  }

  ghost function HeadEntries(mask: Bits): Head -> multiset<Entry> {
    (h: Head) => Sum(h.list, EntryOf(mask, h.flow))
  }

  ghost function SubEntries(st: Subtable): multiset<Entry> {
    Sum(st.heads, HeadEntries(st.mask))
  }

  /** Adding a rule to a list, or putting it in another's place, does the same to the entries. */
  lemma EntriesMerge(mask: Bits, heads: seq<Head>, k: nat, list: seq<Match>, pos: nat, m: Match)
    requires k < |heads| && pos <= |heads[k].list|
    requires list == heads[k].list[..pos] + [m] + heads[k].list[pos..]
             || (pos < |heads[k].list| && list == heads[k].list[pos := m])
    ensures
      var flow, old_ := heads[k].flow, heads[k].list;
      var all' := Sum(heads[k := Head(flow, list)], HeadEntries(mask));
      var all := Sum(heads, HeadEntries(mask)) + multiset{Entry(mask, flow, m)};
      if list == old_[..pos] + [m] + old_[pos..] then all' == all
      else all' + multiset{Entry(mask, flow, old_[pos])} == all
  {
    hide Sum;
    var h, h', f := heads[k], Head(heads[k].flow, list), HeadEntries(mask);
    SumUpdate(heads, k, h', f);
    assert f(h) == Sum(h.list, EntryOf(mask, h.flow)) && f(h') == Sum(list, EntryOf(mask, h.flow));
    var all, all' := Sum(heads, f), Sum(heads[k := h'], f);
    var new_ := multiset{Entry(mask, h.flow, m)};
    if list == h.list[..pos] + [m] + h.list[pos..] {
      SumInsert(h.list, pos, m, EntryOf(mask, h.flow));
      Cancel(all', all + new_, f(h));
    } else {
      SumUpdate(h.list, pos, m, EntryOf(mask, h.flow));
      var gone := multiset{Entry(mask, h.flow, h.list[pos])};
      assert f(h') + gone == f(h) + new_;
      assert all' + gone + f(h) == (all' + f(h)) + gone == all + (f(h') + gone) == all + new_ + f(h);
      Cancel(all' + gone, all + new_, f(h));
    }
  }

  lemma EntriesCut(mask: Bits, heads: seq<Head>, k: nat, pos: nat)
    requires k < |heads| && pos < |heads[k].list|
    ensures
      var h := heads[k];
      Sum(heads[k := Head(h.flow, h.list[..pos] + h.list[pos + 1..])], HeadEntries(mask)) + multiset{Entry(mask, h.flow, h.list[pos])}
      == Sum(heads, HeadEntries(mask))
  {
    hide Sum;
    var h, f := heads[k], HeadEntries(mask);
    var h' := Head(h.flow, h.list[..pos] + h.list[pos + 1..]);
    SumUpdate(heads, k, h', f);
    SumSplit(h.list, pos, EntryOf(mask, h.flow));
    assert f(h) == Sum(h.list, EntryOf(mask, h.flow)) && f(h') == Sum(h'.list, EntryOf(mask, h.flow));
    var gone := multiset{Entry(mask, h.flow, h.list[pos])};
    Cancel(Sum(heads[k := h'], f) + gone, Sum(heads, f), f(h'));
  }

  lemma EntriesNewHead(mask: Bits, heads: seq<Head>, flow: Bits, m: Match)
    ensures Sum(heads + [Head(flow, [m])], HeadEntries(mask)) == Sum(heads, HeadEntries(mask)) + multiset{Entry(mask, flow, m)}
  {
    var h := Head(flow, [m]);
    assert (heads + [h])[..|heads|] == heads;
    SumOne(m, EntryOf(mask, flow));
  }

  lemma EntriesDropHead(mask: Bits, heads: seq<Head>, k: nat)
    requires k < |heads| && |heads[k].list| == 1
    ensures Sum(heads[..k] + heads[k + 1..], HeadEntries(mask)) + multiset{Entry(mask, heads[k].flow, heads[k].list[0])}
         == Sum(heads, HeadEntries(mask))
  {
    hide Sum;
    var h := heads[k];
    SumSplit(heads, k, HeadEntries(mask));
    SumOne(h.list[0], EntryOf(mask, h.flow));
    assert h.list == [h.list[0]];
    assert HeadEntries(mask)(h) == Sum(h.list, EntryOf(mask, h.flow));
  }

  /** Searches the heads with the hash of `flow` for the one with exactly that value. */
  method FindEqual(cfg: Config, st: Subtable, flow: Bits) returns (k: Option<nat>)
    requires ValidConfig(cfg) && SubtableOk(cfg, st) && IsFlow(cfg, flow)
    ensures k.Some? ==> k.value < |st.heads| && st.heads[k.value].flow == flow
    ensures k.None? ==> forall i :: 0 <= i < |st.heads| ==> st.heads[i].flow != flow
  {
    var hash := StageHash(cfg.hashing, flow, st.mask, cfg.words);
    for i := 0 to |st.heads|
      invariant forall j :: 0 <= j < i ==> st.heads[j].flow != flow
    {
      if StageHash(cfg.hashing, st.heads[i].flow, st.mask, cfg.words) == hash && st.heads[i].flow == flow {
        return Some(i);
      }
    }
    k := None;
  }

  predicate SameFlows(heads: seq<Head>, heads': seq<Head>) {
    |heads| == |heads'| && forall k :: 0 <= k < |heads| ==> heads[k].flow == heads'[k].flow
  }

  lemma RaiseMaxOk(st: Subtable, st': Subtable, p: Priority)
    requires st.heads == [] || MaxOk(st)
    requires st'.heads != [] && st'.maxPriority == st.maxPriority && st'.maxCount == st.maxCount
    requires forall j :: 0 <= j < |st'.heads| ==> st'.heads[j].list != []
    requires forall j :: 0 <= j < |st'.heads| ==>
      st'.heads[j].list[0].priority <= p || (st.heads != [] && st'.heads[j].list[0].priority <= st.maxPriority)
    requires forall q :: TopCount(st'.heads, q) == TopCount(st.heads, q) + if p == q then 1 else 0
    ensures MaxOk(RaiseMax(st', p, st.heads == []))
  {
    hide TopCount;
  }

  /** What `AddRule` promises of the rules of the subtable. */
  ghost predicate Added(st: Subtable, st': Subtable, flow: Bits, m: Match, displaced: Option<Match>) {
    var all := SubEntries(st) + multiset{Entry(st.mask, flow, m)};
    match displaced
    case None => SubEntries(st') == all
    case Some(old_) => Entry(st.mask, flow, old_) in SubEntries(st) && SubEntries(st') + multiset{Entry(st.mask, flow, old_)} == all
  }

  predicate SameKeys(st: Subtable, st': Subtable) {
    st'.mask == st.mask && st'.cuts == st.cuts && st'.triePlen == st.triePlen && st'.portsLen == st.portsLen
  }

  /** The bookkeeping of priorities is not part of what the indices say. */
  lemma MaxIsApart(cfg: Config, st: Subtable, p: int, n: nat)
    requires ValidConfig(cfg)
    ensures SubtableOk(cfg, st.(maxPriority := p, maxCount := n)) <==> SubtableOk(cfg, st)
  {
  }

  lemma MaxAfterAdd(st: Subtable, k: nat, m: Match, pos: nat)
    requires HeadsOk(st.mask, st.heads) && MaxOk(st) && k < |st.heads| && pos <= |st.heads[k].list|
    ensures
      var list := st.heads[k].list;
      var st1 := st.(heads := st.heads[k := Head(st.heads[k].flow, list[..pos] + [m] + list[pos..])]);
      MaxOk(RaiseMax(st1, m.priority, false))
  {
    hide TopCount;
    var list := st.heads[k].list;
    var list' := list[..pos] + [m] + list[pos..];
    var st1 := st.(heads := st.heads[k := Head(st.heads[k].flow, list')]);
    forall q ensures TopCount(st1.heads, q) == TopCount(st.heads, q) + if m.priority == q then 1 else 0 {
      TopUpdate(st.heads, k, list', q);
      TopMerge(list, pos, m, q);
    }
    RaiseMaxOk(st, st1, m.priority);
  }

  lemma MaxAfterReplace(st: Subtable, k: nat, m: Match, pos: nat)
    requires HeadsOk(st.mask, st.heads) && MaxOk(st) && k < |st.heads|
    requires pos < |st.heads[k].list| && st.heads[k].list[pos].priority == m.priority
    ensures MaxOk(st.(heads := st.heads[k := Head(st.heads[k].flow, st.heads[k].list[pos := m])]))
  {
    hide TopCount;
    var list := st.heads[k].list;
    TopUpdate(st.heads, k, list[pos := m], st.maxPriority);
    TopMerge(list, pos, m, st.maxPriority);
  }

  lemma AddedMerge(st: Subtable, st': Subtable, k: nat, list': seq<Match>, pos: nat, m: Match, displaced: Option<Match>)
    requires k < |st.heads| && pos <= |st.heads[k].list| && st'.mask == st.mask
    requires st'.heads == st.heads[k := Head(st.heads[k].flow, list')]
    requires
      var list := st.heads[k].list;
      match displaced
      case None => list' == list[..pos] + [m] + list[pos..]
      case Some(x) => pos < |list| && x == list[pos] && list' == list[pos := m]
    ensures Added(st, st', st.heads[k].flow, m, displaced)
  {
    hide Sum;
    EntriesMerge(st.mask, st.heads, k, list', pos, m);
    if displaced.Some? {
      EntriesCut(st.mask, st.heads, k, pos);
    }
  }

  method AddToList(cfg: Config, st: Subtable, k: nat, m: Match) returns (st': Subtable, displaced: Option<Match>)
    requires ValidConfig(cfg) && SubtableOk(cfg, st) && MaxOk(st) && k < |st.heads|
    ensures SubtableOk(cfg, st') && MaxOk(st') && SameKeys(st, st') && SameFlows(st.heads, st'.heads)
    ensures Added(st, st', st.heads[k].flow, m, displaced)
    ensures displaced.Some? <==> Replaceable(st.heads[k].list, m.priority)
    ensures displaced.Some? ==>
      displaced.value.priority == m.priority && !displaced.value.EventuallyInvisible() && st'.maxPriority == st.maxPriority
  {
    hide MaxOk, Added, IndicesOk, PortsOk, PlensOk, StagesOk;
    var list := st.heads[k].list;
    assert HeadOk(st.mask, st.heads[k]);
    var list', pos;
    list', pos, displaced := MergeRule(list, m);
    SetListOk(cfg, st, k, list');
    st' := st.(heads := st.heads[k := Head(st.heads[k].flow, list')]);
    if displaced.None? {
      MaxAfterAdd(st, k, m, pos);
      st' := RaiseMax(st', m.priority, false);
      MaxIsApart(cfg, st', st.maxPriority, st.maxCount);
    } else {
      MaxAfterReplace(st, k, m, pos);
    }
    AddedMerge(st, st', k, list', pos, m, displaced);
  }

  /** A rule of the list has the priority and is not on its way out. */
  predicate Replaceable(list: seq<Match>, p: Priority) {
    exists i :: 0 <= i < |list| && list[i].priority == p && !list[i].EventuallyInvisible()
  }

  lemma NewHeadOk(st: Subtable, st': Subtable, flow: Bits, m: Match)
    requires HeadsOk(st.mask, st.heads) && (st.heads == [] || MaxOk(st))
    requires st'.mask == st.mask && st'.heads == st.heads + [Head(flow, [m])]
    requires st'.maxPriority == st.maxPriority && st'.maxCount == st.maxCount
    ensures MaxOk(RaiseMax(st', m.priority, |st'.heads| == 1))
    ensures Added(st, st', flow, m, None)
  {
    hide TopCount, Sum;
    forall q ensures TopCount(st'.heads, q) == TopCount(st.heads, q) + if m.priority == q then 1 else 0 {
      TopNewHead(st.heads, flow, m, q);
    }
    RaiseMaxOk(st, st', m.priority);
    EntriesNewHead(st.mask, st.heads, flow, m);
  }

  /** Adds `m`, which matches `flow`, to the subtable. */
  method AddRule(cfg: Config, st: Subtable, flow: Bits, m: Match)
    returns (st': Subtable, displaced: Option<Match>, newHead: bool)
    requires ValidConfig(cfg) && SubtableOk(cfg, st) && (st.heads == [] || MaxOk(st))
    requires IsFlow(cfg, flow) && And(flow, st.mask) == flow
    ensures SubtableOk(cfg, st') && MaxOk(st') && MaxExact(st') && SameKeys(st, st') && st'.heads != []
    ensures Added(st, st', flow, m, displaced)
    ensures displaced.Some? <==>
      exists k :: 0 <= k < |st.heads| && st.heads[k].flow == flow && Replaceable(st.heads[k].list, m.priority)
    ensures displaced.Some? ==>
      displaced.value.priority == m.priority && !displaced.value.EventuallyInvisible() && st'.maxPriority == st.maxPriority
    ensures newHead ==> displaced.None? && st'.heads == st.heads + [Head(flow, [m])]
    ensures !newHead ==> SameFlows(st.heads, st'.heads)
  {
    hide MaxOk, MaxExact, Added, IndicesOk, PortsOk, PlensOk, StagesOk, Replaceable;
    var k := FindEqual(cfg, st, flow);
    if k.None? {
      st' := AddHead(cfg, st, Head(flow, [m]));
      NewHeadOk(st, st', flow, m);
      ghost var before := st';
      st' := RaiseMax(st', m.priority, |st'.heads| == 1);
      MaxIsApart(cfg, st', st.maxPriority, st.maxCount);
      AddedMax(st, before, st', flow, m);
      displaced, newHead := None, true;
    } else {
      st', displaced := AddToList(cfg, st, k.value, m);
      newHead := false;
      assert st.heads[k.value].flow == flow;
    }
    MaxAttained(st');
  }

  lemma AddedMax(st: Subtable, st1: Subtable, st2: Subtable, flow: Bits, m: Match)
    requires Added(st, st1, flow, m, None) && st2.heads == st1.heads && st2.mask == st1.mask
    ensures Added(st, st2, flow, m, None)
  {
  }

  // ----- removal

  /** After a rule of priority `p` is gone: counts down, and counts anew when the count runs out. */
  method LowerMax(st: Subtable, p: Priority) returns (st': Subtable)
    requires st.heads != [] && 1 <= st.maxCount <= TopCount(st.heads, st.maxPriority) + if p == st.maxPriority then 1 else 0
    requires forall j :: 0 <= j < |st.heads| ==> st.heads[j].list != [] && st.heads[j].list[0].priority <= st.maxPriority
    ensures MaxOk(st') && st' == st.(maxPriority := st'.maxPriority, maxCount := st'.maxCount)
  {
    hide TopCount;
    st' := st;
    if st.maxPriority == p {
      st' := st.(maxCount := st.maxCount - 1);
      if st'.maxCount == 0 {
        var maxPriority, maxCount := Recount(st.heads);
        st' := st.(maxPriority := maxPriority, maxCount := maxCount);
      }
    }
  }

  /** The rule in the `pos`-th place of the `k`-th list is gone. */
  ghost predicate Removed(st: Subtable, st': Subtable, k: nat, pos: nat)
    requires k < |st.heads| && pos < |st.heads[k].list|
  {
    SubEntries(st') + multiset{Entry(st.mask, st.heads[k].flow, st.heads[k].list[pos])} == SubEntries(st)
  }

  lemma CutOk(st: Subtable, st': Subtable, k: nat, pos: nat)
    requires HeadsOk(st.mask, st.heads) && MaxOk(st) && k < |st.heads| && pos < |st.heads[k].list| && |st.heads[k].list| > 1
    requires
      var list := st.heads[k].list;
      st' == st.(heads := st.heads[k := Head(st.heads[k].flow, list[..pos] + list[pos + 1..])])
    ensures Removed(st, st', k, pos)
    ensures Sorted(st'.heads[k].list) && st'.heads[k].list != []
    ensures forall j :: 0 <= j < |st'.heads| ==> st'.heads[j].list != [] && st'.heads[j].list[0].priority <= st.maxPriority
    ensures st.maxCount <= TopCount(st'.heads, st.maxPriority) + if st.heads[k].list[pos].priority == st.maxPriority then 1 else 0
  {
    hide Sum, TopCount;
    var list := st.heads[k].list;
    assert HeadOk(st.mask, st.heads[k]);
    EntriesCut(st.mask, st.heads, k, pos);
    TopUpdate(st.heads, k, list[..pos] + list[pos + 1..], st.maxPriority);
    TopMerge(list, pos, list[pos], st.maxPriority);
  }

  lemma DropOk(st: Subtable, st': Subtable, k: nat)
    requires HeadsOk(st.mask, st.heads) && MaxOk(st) && k < |st.heads| && |st.heads[k].list| == 1
    requires st'.mask == st.mask && st'.heads == st.heads[..k] + st.heads[k + 1..]
    ensures Removed(st, st', k, 0)
    ensures forall j :: 0 <= j < |st'.heads| ==> st'.heads[j].list != [] && st'.heads[j].list[0].priority <= st.maxPriority
    ensures st.maxCount <= TopCount(st'.heads, st.maxPriority) + if st.heads[k].list[0].priority == st.maxPriority then 1 else 0
  {
    hide Sum, TopCount;
    var list := st.heads[k].list;
    EntriesDropHead(st.mask, st.heads, k);
    TopWithout(st.heads, k, st.maxPriority);
    TopOne(list[0], st.maxPriority);
    assert list == [list[0]];
  }

  lemma TopOne(m: Match, p: int)
    ensures |Sum([m], Top(p))| == Weigh(m, p)
  {
    SumOne(m, Top(p));
  }

  /** Goes along a list of equal rules to the rule `id`, or to the end. */
  method FindRule(list: seq<Match>, id: nat) returns (pos: nat)
    ensures pos <= |list| && (pos < |list| ==> list[pos].id == id) && forall i :: 0 <= i < pos ==> list[i].id != id
  {
    pos := 0;
    while pos < |list| && list[pos].id != id
      invariant 0 <= pos <= |list| && forall i :: 0 <= i < pos ==> list[i].id != id
    {
      pos := pos + 1;
    }
  }

  /** Removes the rule `id`, which matches `flow`, if the subtable has it.  `dropped` is the place of
      its head when the rule was the last of its list. */
  method RemoveRule(cfg: Config, st: Subtable, flow: Bits, id: nat)
    returns (st': Subtable, gone: Option<Match>, dropped: Option<nat>)
    requires ValidConfig(cfg) && SubtableOk(cfg, st) && MaxOk(st) && IsFlow(cfg, flow)
    ensures SubtableOk(cfg, st') && SameKeys(st, st') && (st'.heads != [] ==> MaxOk(st') && MaxExact(st'))
    ensures gone.None? ==>
      && st' == st && dropped.None?
      && forall k, i :: 0 <= k < |st.heads| && st.heads[k].flow == flow && 0 <= i < |st.heads[k].list| ==>
           st.heads[k].list[i].id != id
    ensures gone.Some? ==>
      gone.value.id == id && SubEntries(st') + multiset{Entry(st.mask, flow, gone.value)} == SubEntries(st)
    ensures dropped.None? ==> SameFlows(st.heads, st'.heads) && st'.heads != []
    ensures dropped.Some? ==>
      && dropped.value < |st.heads| && st.heads[dropped.value].flow == flow
      && st'.heads == st.heads[..dropped.value] + st.heads[dropped.value + 1..]
  {
    hide TopCount, SubEntries, IndicesOk, PortsOk, PlensOk, StagesOk, MaxExact;
    st', gone, dropped := st, None, None;
    MaxAttained(st);
    var found := FindEqual(cfg, st, flow);
    if found.None? {
      return;
    }
    var k := found.value;
    var list := st.heads[k].list;
    var pos := FindRule(list, id);
    if pos == |list| {
      return;
    }
    gone := Some(list[pos]);
    if |list| > 1 {
      var list' := list[..pos] + list[pos + 1..];
      st' := st.(heads := st.heads[k := Head(flow, list')]);
      CutOk(st, st', k, pos);
      SetListOk(cfg, st, k, list');
    } else {
      st' := DropHead(cfg, st, k);
      DropOk(st, st', k);
      dropped := Some(k);
    }
    if st'.heads != [] {
      ghost var before := st';
      st' := LowerMax(st', list[pos].priority);
      MaxIsApart(cfg, before, st'.maxPriority, st'.maxCount);
      EntriesMax(before, st');
      MaxAttained(st');
    }
  }

  lemma EntriesMax(st: Subtable, st': Subtable)
    requires st'.mask == st.mask && st'.heads == st.heads
    ensures SubEntries(st') == SubEntries(st)
  {
  }

  // ----- rules that are to go

  /** Gives the rule `id`, which matches `flow`, a version to go in.  It stays where it is. */
  method HideRule(cfg: Config, st: Subtable, flow: Bits, id: nat, version: nat)
    returns (st': Subtable, hidden: Option<Match>)
    requires ValidConfig(cfg) && SubtableOk(cfg, st) && MaxOk(st) && IsFlow(cfg, flow)
    ensures SubtableOk(cfg, st') && MaxOk(st') && SameKeys(st, st') && SameFlows(st.heads, st'.heads)
    ensures st'.maxPriority == st.maxPriority
    ensures hidden.None? ==>
      && st' == st
      && forall k, i :: 0 <= k < |st.heads| && st.heads[k].flow == flow && 0 <= i < |st.heads[k].list| ==>
           st.heads[k].list[i].id != id
    ensures hidden.Some? ==>
      hidden.value.id == id && Added(st, st', flow, hidden.value.(removeVersion := version), hidden)
  {
    hide TopCount, SubEntries, IndicesOk, PortsOk, PlensOk, StagesOk, MaxOk, Added;
    st', hidden := st, None;
    var found := FindEqual(cfg, st, flow);
    if found.None? {
      return;
    }
    var k := found.value;
    var list := st.heads[k].list;
    var pos := FindRule(list, id);
    if pos == |list| {
      return;
    }
    var m := list[pos].(removeVersion := version);
    SortedSame(list, pos, m);
    assert HeadOk(st.mask, st.heads[k]);
    SetListOk(cfg, st, k, list[pos := m]);
    MaxAfterReplace(st, k, m, pos);
    st', hidden := st.(heads := st.heads[k := Head(flow, list[pos := m])]), Some(list[pos]);
    AddedMerge(st, st', k, list[pos := m], pos, m, hidden);
  }

  lemma SortedSame(list: seq<Match>, pos: nat, m: Match)
    requires pos < |list| && list[pos].priority == m.priority
    ensures Sorted(list) ==> Sorted(list[pos := m])
  {
  }
}
