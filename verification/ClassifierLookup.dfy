/** Lookup over all subtables, with conjunctive matches.  The functions say what is looked up; the
    methods look it up with the staged search and collect the wildcard mask. */
module ClassifierLookup {
  import opened Bits
  import opened Flows
  import opened PrefixTrie
  import opened StagedLookup
  import opened Subtables
  import opened Wrappers

  const INT_MIN := -0x8000_0000

  /** `hard` is the best certain match so far; `soft` are lists of equal rules, each from a visible
      conjunctive rule on. */
  datatype Scan = Scan(hard: Option<Match>, soft: seq<seq<Match>>)

  function HardPriority(hard: Option<Match>): int {
    if hard.None? then INT_MIN else hard.value.priority
  }

  // ----- the main loop

  function Consider(acc: Scan, tail: seq<Match>, allow: bool): Scan {
    if tail == [] || tail[0].priority <= HardPriority(acc.hard) then acc
    else if tail[0].conjs == [] then acc.(hard := Some(tail[0]))
    else if allow then acc.(soft := acc.soft + [tail])
    else acc
  }

  predicate SameSize(subs: seq<Subtable>, f: Bits) {
    forall k :: 0 <= k < |subs| ==> |subs[k].mask| == |f|
  }

  /** Goes through the subtables while they may hold something better than the hard match. */
  function ScanFrom(subs: seq<Subtable>, f: Bits, version: nat, allow: bool, acc: Scan): Scan
    requires SameSize(subs, f)
  {
    if subs == [] || subs[0].maxPriority < HardPriority(acc.hard) + 1 then acc
    else ScanFrom(subs[1..], f, version, allow, Consider(acc, SubTail(subs[0], f, version), allow))
  }

  /** How many subtables that takes. */
  function Scanned(subs: seq<Subtable>, f: Bits, version: nat, allow: bool, acc: Scan): (n: nat)
    requires SameSize(subs, f)
    ensures n <= |subs|
  {
    if subs == [] || subs[0].maxPriority < HardPriority(acc.hard) + 1 then 0
    else 1 + Scanned(subs[1..], f, version, allow, Consider(acc, SubTail(subs[0], f, version), allow))
  }

  /** The lookup that ignores conjunctive rules. */
  function PlainLookup(subs: seq<Subtable>, f: Bits, version: nat): Option<Match>
    requires SameSize(subs, f)
  {
    ScanFrom(subs, f, version, false, Scan(None, [])).hard
  }

  // ----- conjunctive matches

  const CLAUSE_BITS := 64

  /** The clause bits from `lo` on. */
  function HighBits(lo: nat): (r: set<nat>)
    ensures forall b: nat :: b in r <==> lo <= b < CLAUSE_BITS
    decreases CLAUSE_BITS - lo
  {
    if lo >= CLAUSE_BITS then {} else {lo} + HighBits(lo + 1)
  }

  /** The clauses seen so far of each conjunction, as the bits that are set. */
  type Clauses = map<nat, set<nat>>

  function Record(c: Conjunction, matches: Clauses): set<nat> {
    (if c.id in matches then matches[c.id] else HighBits(c.nClauses % CLAUSE_BITS)) + {c.clause}
  }

  /** Records the clauses of one rule until one of its conjunctions is complete. */
  function FindConjunctive(conjs: seq<Conjunction>, maxClauses: nat, matches: Clauses): (Option<nat>, Clauses) {
    if conjs == [] then (None, matches)
    else
      var c, rest := conjs[0], conjs[1..];
      if c.nClauses > maxClauses then FindConjunctive(rest, maxClauses, matches)
      else
        var matches' := matches[c.id := Record(c, matches)];
        if matches'[c.id] == HighBits(0) then (Some(c.id), matches')
        else FindConjunctive(rest, maxClauses, matches')
  }

  /** The 32 bits of a conjunction id. */
  function IdBits(id: nat, width: nat): (r: Bits)
    ensures |r| == width
  {
    if width == 0 then [] else IdBits(id / 2, width - 1) + [id % 2 == 1]
  }

  function SetConjId(cfg: Config, f: Bits, id: nat): (r: Bits)
    requires ValidConfig(cfg) && IsFlow(cfg, f)
    ensures IsFlow(cfg, r)
  {
    f[..cfg.conjId] + IdBits(id, 32) + f[cfg.conjId + 32..]
  }

  /** Tries the soft matches of priority `pri` from the `i`-th on; `n` is how many there are. */
  function Round(cfg: Config, subs: seq<Subtable>, f: Bits, version: nat, soft: seq<seq<Match>>,
                 pri: int, n: nat, i: nat, matches: Clauses): Option<Match>
    requires ValidConfig(cfg) && IsFlow(cfg, f) && SameSize(subs, f) && i <= |soft|
    requires forall k :: 0 <= k < |soft| ==> soft[k] != []
    decreases |soft| - i
  {
    if i == |soft| then None
    else if soft[i][0].priority != pri then Round(cfg, subs, f, version, soft, pri, n, i + 1, matches)
    else
      var (id, matches') := FindConjunctive(soft[i][0].conjs, n, matches);
      var rule := if id.None? then None else PlainLookup(subs, SetConjId(cfg, f, id.value), version);
      if rule.Some? then rule else Round(cfg, subs, f, version, soft, pri, n, i + 1, matches')
  }

  /** The conjunctions that a round over the soft matches from the `i`-th on finds complete, in order. */
  function Candidates(soft: seq<seq<Match>>, pri: int, n: nat, i: nat, matches: Clauses): seq<nat>
    requires i <= |soft| && forall k :: 0 <= k < |soft| ==> soft[k] != []
    decreases |soft| - i
  {
    if i == |soft| then []
    else if soft[i][0].priority != pri then Candidates(soft, pri, n, i + 1, matches)
    else
      var (id, matches') := FindConjunctive(soft[i][0].conjs, n, matches);
      (if id.Some? then [id.value] else []) + Candidates(soft, pri, n, i + 1, matches')
  }

  /** Of the candidates, those that are looked up: all up to the first one that leads to a rule. */
  function LookedUp(cfg: Config, subs: seq<Subtable>, f: Bits, version: nat, ids: seq<nat>): (r: seq<nat>)
    requires ValidConfig(cfg) && IsFlow(cfg, f) && SameSize(subs, f)
    ensures r <= ids
  {
    if ids == [] then []
    else if PlainLookup(subs, SetConjId(cfg, f, ids[0]), version).Some? then [ids[0]]
    else [ids[0]] + LookedUp(cfg, subs, f, version, ids[1..])
  }

  /** The rule that the last of the conjunctions leads to. */
  function LastRule(cfg: Config, subs: seq<Subtable>, f: Bits, version: nat, ids: seq<nat>): Option<Match>
    requires ValidConfig(cfg) && IsFlow(cfg, f) && SameSize(subs, f)
  {
    if ids == [] then None else PlainLookup(subs, SetConjId(cfg, f, ids[|ids| - 1]), version)
  }

  /** One soft match of a round: what is looked up for it, and for those that follow. */
  lemma LookedUpStep(cfg: Config, subs: seq<Subtable>, f: Bits, version: nat, soft: seq<seq<Match>>,
                     pri: int, n: nat, i: nat, matches: Clauses)
    requires ValidConfig(cfg) && IsFlow(cfg, f) && SameSize(subs, f) && i < |soft|
    requires forall k :: 0 <= k < |soft| ==> soft[k] != []
    ensures
      var now := LookedUp(cfg, subs, f, version, Candidates(soft, pri, n, i, matches));
      if soft[i][0].priority != pri then now == LookedUp(cfg, subs, f, version, Candidates(soft, pri, n, i + 1, matches))
      else
        var (id, matches') := FindConjunctive(soft[i][0].conjs, n, matches);
        var next := LookedUp(cfg, subs, f, version, Candidates(soft, pri, n, i + 1, matches'));
        now == if id.None? then next
               else if PlainLookup(subs, SetConjId(cfg, f, id.value), version).Some? then [id.value]
               else [id.value] + next
  {
    hide PlainLookup, SetConjId, FindConjunctive;
    if soft[i][0].priority == pri {
      var (id, matches') := FindConjunctive(soft[i][0].conjs, n, matches);
      var rest := Candidates(soft, pri, n, i + 1, matches');
      if id.Some? {
        assert ([id.value] + rest)[1..] == rest;
      } else {
        assert [] + rest == rest;
      }
    }
  }

  /** A round gives what the last conjunction that it looks up leads to, and all the others before it
      lead to nothing. */
  lemma {:induction false} RoundLooksUp(cfg: Config, subs: seq<Subtable>, f: Bits, version: nat, soft: seq<seq<Match>>,
                                        pri: int, n: nat, i: nat, matches: Clauses)
    requires ValidConfig(cfg) && IsFlow(cfg, f) && SameSize(subs, f) && i <= |soft|
    requires forall k :: 0 <= k < |soft| ==> soft[k] != []
    ensures
      var ids := LookedUp(cfg, subs, f, version, Candidates(soft, pri, n, i, matches));
      && Round(cfg, subs, f, version, soft, pri, n, i, matches) == LastRule(cfg, subs, f, version, ids)
      && (forall k :: 0 <= k < |ids| - 1 ==> PlainLookup(subs, SetConjId(cfg, f, ids[k]), version).None?)
    decreases |soft| - i
  {
    hide PlainLookup, SetConjId, FindConjunctive, LookedUp, Candidates;
    if i == |soft| {
      NoneLeft(cfg, subs, f, version, soft, pri, n, matches);
    } else {
      LookedUpStep(cfg, subs, f, version, soft, pri, n, i, matches);
      var (id, matches') := FindConjunctive(soft[i][0].conjs, n, matches);
      RoundLooksUp(cfg, subs, f, version, soft, pri, n, i + 1, if soft[i][0].priority == pri then matches' else matches);
    }
  }

  lemma NoneLeft(cfg: Config, subs: seq<Subtable>, f: Bits, version: nat, soft: seq<seq<Match>>, pri: int, n: nat,
                 matches: Clauses)
    requires ValidConfig(cfg) && IsFlow(cfg, f) && SameSize(subs, f)
    requires forall k :: 0 <= k < |soft| ==> soft[k] != []
    ensures LookedUp(cfg, subs, f, version, Candidates(soft, pri, n, |soft|, matches)) == []
  {
  }

  /** Deletes, from the `i`-th on, the soft matches that are gone or not above `pri`; the last one
      takes the place of a deleted one. */
  function DropDead(soft: seq<seq<Match>>, i: nat, pri: int): (r: seq<seq<Match>>)
    requires i <= |soft|
    requires forall k :: 0 <= k < i ==> soft[k] != [] && soft[k][0].priority > pri
    ensures |r| <= |soft|
    ensures forall k :: 0 <= k < |r| ==> r[k] != [] && r[k][0].priority > pri
    decreases |soft| - i
  {
    if i == |soft| then soft
    else if soft[i] == [] || soft[i][0].priority <= pri then
      DropDead(soft[i := soft[|soft| - 1]][..|soft| - 1], i, pri)
    else DropDead(soft, i + 1, pri)
  }

  function TopPriority(soft: seq<seq<Match>>): int
    requires forall k :: 0 <= k < |soft| ==> soft[k] != []
  {
    if soft == [] then INT_MIN
    else
      var n := |soft| - 1;
      var p := TopPriority(soft[..n]);
      if soft[n][0].priority > p then soft[n][0].priority else p
  }

  function CountAt(soft: seq<seq<Match>>, pri: int): nat
    requires forall k :: 0 <= k < |soft| ==> soft[k] != []
  {
    if soft == [] then 0
    else CountAt(soft[..|soft| - 1], pri) + if soft[|soft| - 1][0].priority == pri then 1 else 0
  }

  /** One soft match steps down. */
  function StepOne(acc: Scan, version: nat, i: nat): Scan
    requires i < |acc.soft| && acc.soft[i] != []
  {
    var next := VisibleFrom(acc.soft[i][1..], version);
    var isHard := next != [] && next[0].conjs == [];
    var hard := if isHard && next[0].priority > HardPriority(acc.hard) then Some(next[0]) else acc.hard;
    Scan(hard, acc.soft[i := if isHard then [] else next])
  }

  /** Steps the soft matches of priority `pri`, from the `i`-th on, down their lists of equal rules. */
  function FallBack(acc: Scan, version: nat, pri: int, i: nat): (r: Scan)
    requires i <= |acc.soft| && forall k :: i <= k < |acc.soft| ==> acc.soft[k] != []
    ensures |r.soft| == |acc.soft|
    decreases |acc.soft| - i
  {
    if i == |acc.soft| then acc
    else FallBack(if acc.soft[i][0].priority != pri then acc else StepOne(acc, version, i), version, pri, i + 1)
  }

  ghost function Weight(soft: seq<seq<Match>>): nat {
    if soft == [] then 0 else Weight(soft[..|soft| - 1]) + |soft[|soft| - 1]|
  }

  lemma {:induction false} WeightUpdate(soft: seq<seq<Match>>, i: nat, x: seq<Match>)
    requires i < |soft|
    ensures Weight(soft[i := x]) == Weight(soft) - |soft[i]| + |x|
    decreases |soft|
  {
    var n := |soft| - 1;
    if i == n {
      assert soft[i := x][..n] == soft[..n];
    } else {
      assert soft[i := x][..n] == soft[..n][i := x];
      WeightUpdate(soft[..n], i, x);
    }
  }

  lemma WeightLast(soft: seq<seq<Match>>)
    requires soft != []
    ensures Weight(soft) == Weight(soft[..|soft| - 1]) + |soft[|soft| - 1]|
  {
  }

  lemma {:induction false} DropDeadWeight(soft: seq<seq<Match>>, i: nat, pri: int)
    requires i <= |soft| && forall k :: 0 <= k < i ==> soft[k] != [] && soft[k][0].priority > pri
    ensures Weight(DropDead(soft, i, pri)) <= Weight(soft)
    decreases |soft| - i
  {
    hide Weight;
    if i < |soft| {
      if soft[i] == [] || soft[i][0].priority <= pri {
        var n := |soft| - 1;
        WeightUpdate(soft, i, soft[n]);
        WeightLast(soft[i := soft[n]]);
        DropDeadWeight(soft[i := soft[n]][..n], i, pri);
      } else {
        DropDeadWeight(soft, i + 1, pri);
      }
    }
  }

  /** Soft matches move strictly down their lists, which is why the soft match loop ends. */
  lemma {:induction false} FallBackWeight(acc: Scan, version: nat, pri: int, i: nat)
    requires i <= |acc.soft| && forall k :: i <= k < |acc.soft| ==> acc.soft[k] != []
    ensures Weight(FallBack(acc, version, pri, i).soft) <= Weight(acc.soft)
    ensures (exists k :: i <= k < |acc.soft| && acc.soft[k][0].priority == pri)
            ==> Weight(FallBack(acc, version, pri, i).soft) < Weight(acc.soft)
    decreases |acc.soft| - i
  {
    hide VisibleFrom, Weight, HardPriority;
    if i < |acc.soft| {
      if acc.soft[i][0].priority != pri {
        FallBackWeight(acc, version, pri, i + 1);
      } else {
        var next := VisibleFrom(acc.soft[i][1..], version);
        var isHard := next != [] && next[0].conjs == [];
        var hard := if isHard && next[0].priority > HardPriority(acc.hard) then Some(next[0]) else acc.hard;
        var x := if isHard then [] else next;
        var acc' := Scan(hard, acc.soft[i := x]);
        WeightUpdate(acc.soft, i, x);
        FallBackWeight(acc', version, pri, i + 1);
        assert FallBack(acc, version, pri, i) == FallBack(acc', version, pri, i + 1);
      }
    }
  }

  lemma {:induction false} TopPriorityIsTop(soft: seq<seq<Match>>)
    requires forall k :: 0 <= k < |soft| ==> soft[k] != []
    ensures forall k :: 0 <= k < |soft| ==> soft[k][0].priority <= TopPriority(soft)
    ensures soft != [] ==> exists k :: 0 <= k < |soft| && soft[k][0].priority == TopPriority(soft)
    decreases |soft|
  {
    if soft != [] {
      var n := |soft| - 1;
      TopPriorityIsTop(soft[..n]);
      if n > 0 && soft[n][0].priority <= TopPriority(soft[..n]) {
        var k :| 0 <= k < n && soft[..n][k][0].priority == TopPriority(soft[..n]);
        assert soft[k][0].priority == TopPriority(soft);
      } else {
        assert soft[n][0].priority == TopPriority(soft);
      }
    }
  }

  /** The soft match loop: the best soft matches are tried, then stepped down, until a conjunction
      leads to a rule or no soft match is above the hard one. */
  function SoftSearch(cfg: Config, subs: seq<Subtable>, f: Bits, version: nat, acc: Scan): Option<Match>
    requires ValidConfig(cfg) && IsFlow(cfg, f) && SameSize(subs, f)
    decreases Weight(acc.soft)
  {
    var soft := DropDead(acc.soft, 0, HardPriority(acc.hard));
    if soft == [] then acc.hard
    else
      var pri := TopPriority(soft);
      var rule := Round(cfg, subs, f, version, soft, pri, CountAt(soft, pri), 0, map[]);
      if rule.Some? then rule
      else
        DropDeadWeight(acc.soft, 0, HardPriority(acc.hard));
        TopPriorityIsTop(soft);
        FallBackWeight(Scan(acc.hard, soft), version, pri, 0);
        SoftSearch(cfg, subs, f, version, FallBack(Scan(acc.hard, soft), version, pri, 0))
  }

  /** A conjunction that is looked up, and the priority of the round that does so. */
  datatype Try = Try(id: nat, pri: int)

  function TriesOf(ids: seq<nat>, pri: int): (r: seq<Try>)
    ensures |r| == |ids| && forall k :: 0 <= k < |ids| ==> r[k] == Try(ids[k], pri)
  {
    seq(|ids|, k requires 0 <= k < |ids| => Try(ids[k], pri))
  }

  /** The conjunctions that the soft match loop looks up, in order. */
  function Tried(cfg: Config, subs: seq<Subtable>, f: Bits, version: nat, acc: Scan): seq<Try>
    requires ValidConfig(cfg) && IsFlow(cfg, f) && SameSize(subs, f)
    decreases Weight(acc.soft)
  {
    var soft := DropDead(acc.soft, 0, HardPriority(acc.hard));
    if soft == [] then []
    else
      var pri := TopPriority(soft);
      var ids := LookedUp(cfg, subs, f, version, Candidates(soft, pri, CountAt(soft, pri), 0, map[]));
      var rule := Round(cfg, subs, f, version, soft, pri, CountAt(soft, pri), 0, map[]);
      TriesOf(ids, pri) +
      if rule.Some? then []
      else
        DropDeadWeight(acc.soft, 0, HardPriority(acc.hard));
        TopPriorityIsTop(soft);
        FallBackWeight(Scan(acc.hard, soft), version, pri, 0);
        Tried(cfg, subs, f, version, FallBack(Scan(acc.hard, soft), version, pri, 0))
  }

  /** What a lookup of `f` in `version` finds. */
  function Lookup(cfg: Config, subs: seq<Subtable>, f: Bits, version: nat): Option<Match>
    requires ValidConfig(cfg) && IsFlow(cfg, f) && SameSize(subs, f)
  {
    SoftSearch(cfg, subs, f, version, ScanFrom(subs, f, version, true, Scan(None, [])))
  }

  // ----- the search with staged lookup

  /** `g` is a flow that must be treated as `f` is: the same flow when no mask is wanted, and every
      flow that agrees on the mask otherwise. */
  predicate Alike(f: Bits, g: Bits, wc: Option<Bits>) {
    match wc
    case None => f == g
    case Some(m) => Agree(f, g, m)
  }

  /** `wc'` un-wildcards what `wc` does and perhaps more. */
  predicate Wider(wc: Option<Bits>, wc': Option<Bits>) {
    match wc
    case None => wc'.None?
    case Some(m) => wc'.Some? && Within(m, wc'.value)
  }

  /** Some subtable's mask has the bit. */
  ghost predicate Used(subs: seq<Subtable>, b: nat) {
    exists k :: 0 <= k < |subs| && b < |subs[k].mask| && subs[k].mask[b]
  }

  /** `wc'` un-wildcards no bit but those of `wc` and those that some rule of the classifier matches on. */
  ghost predicate Needed(subs: seq<Subtable>, wc: Option<Bits>, wc': Option<Bits>) {
    wc.Some? && wc'.Some? ==>
      |wc.value| == |wc'.value| && forall b :: 0 <= b < |wc.value| && wc'.value[b] ==> wc.value[b] || Used(subs, b)
  }

  lemma NeededOnce(subs: seq<Subtable>, k: nat, wc: Option<Bits>, wc': Option<Bits>)
    requires k < |subs| && (wc.Some? && wc'.Some? ==> OnlyFrom(wc.value, wc'.value, subs[k].mask))
    ensures Needed(subs, wc, wc')
  {
  }

  /** Bits that some of the subtables need, the others may have too. */
  lemma NeededMore(subs: seq<Subtable>, n: nat, i: nat, wc: Option<Bits>, wc': Option<Bits>)
    requires n <= i <= |subs| && Needed(subs[..n], wc, wc')
    ensures Needed(subs[..i], wc, wc') && Needed(subs, wc, wc')
  {
    forall b: nat | Used(subs[..n], b) ensures Used(subs[..i], b) && Used(subs, b) {
      var k :| 0 <= k < n && b < |subs[..n][k].mask| && subs[..n][k].mask[b];
      assert subs[..i][k] == subs[k];
    }
  }

  lemma NeededSame(subs: seq<Subtable>, wc: Option<Bits>)
    ensures Needed(subs, wc, wc)
  {
  }

  lemma NeededTwice(subs: seq<Subtable>, wc: Option<Bits>, wc1: Option<Bits>, wc2: Option<Bits>)
    requires Needed(subs, wc, wc1) && Needed(subs, wc1, wc2) && Wider(wc, wc1)
    ensures Needed(subs, wc, wc2)
  {
  }

  lemma WiderSame(wc: Option<Bits>)
    ensures Wider(wc, wc)
  {
  }

  lemma WiderTwice(wc: Option<Bits>, wc1: Option<Bits>, wc2: Option<Bits>)
    requires Wider(wc, wc1) && Wider(wc1, wc2)
    ensures Wider(wc, wc2)
  {
  }

  predicate MaskOk(cfg: Config, wc: Option<Bits>) {
    wc.Some? ==> IsFlow(cfg, wc.value)
  }

  lemma WiderMask(cfg: Config, f: Bits, wc: Option<Bits>, wc': Option<Bits>)
    requires IsFlow(cfg, f) && MaskOk(cfg, wc) && Wider(wc, wc')
    ensures MaskOk(cfg, wc') && Alike(f, f, wc')
  {
  }

  /** Everything that a lookup relies on. */
  ghost predicate Indexed(cfg: Config, subs: seq<Subtable>, tries: seq<Trie>) {
    && ValidConfig(cfg)
    && |tries| == |cfg.fields|
    && forall k :: 0 <= k < |subs| ==> SubtableOk(cfg, subs[k]) && TriesCover(cfg, tries, subs[k])
  }

  /** Looks `f` up in one subtable, with or without a mask to widen. */
  method SearchSubtable(cfg: Config, tries: seq<Trie>, st: Subtable, version: nat, f: Bits,
                        ctx: seq<TrieCtx>, wc: Option<Bits>)
    returns (tail: seq<Match>, ctx': seq<TrieCtx>, wc': Option<Bits>)
    requires ValidConfig(cfg) && SubtableOk(cfg, st) && TriesCover(cfg, tries, st)
    requires IsFlow(cfg, f) && MaskOk(cfg, wc) && CtxOk(cfg, tries, ctx, f)
    ensures CtxOk(cfg, tries, ctx', f) && Wider(wc, wc')
    ensures wc.Some? ==> OnlyFrom(wc.value, wc'.value, st.mask)
    ensures forall g :: Alike(f, g, wc') ==> |g| == |f| && SubTail(st, g, version) == tail
  {
    match wc
    case None =>
      var hash, _, _ := FlowHashRange(cfg.hashing, f, st.mask, 0, cfg.words, 0, 0);
      tail := FindMatch(cfg, st, version, f, hash);
      ctx', wc' := ctx, None;
    case Some(m) =>
      var m';
      ghost var why;
      tail, ctx', m', why := FindMatchWc(cfg, tries, st, version, f, ctx, m);
      wc' := Some(m');
  }

  /** For every flow treated as `f` is, the scan goes on from the `k`-th subtable with `acc`, and for `f` it has
      taken that many. */
  ghost predicate ScannedTo(subs: seq<Subtable>, f: Bits, wc: Option<Bits>, version: nat, allow: bool, k: nat, acc: Scan)
    requires SameSize(subs, f) && k <= |subs|
  {
    && (forall g :: Alike(f, g, wc) ==>
         |g| == |f| && ScanFrom(subs, g, version, allow, Scan(None, [])) == ScanFrom(subs[k..], g, version, allow, acc))
    && Scanned(subs, f, version, allow, Scan(None, [])) == k + Scanned(subs[k..], f, version, allow, acc)
  }

  lemma ScansOn(subs: seq<Subtable>, g: Bits, version: nat, allow: bool, k: nat, acc: Scan)
    requires SameSize(subs, g) && k < |subs| && subs[k].maxPriority >= HardPriority(acc.hard) + 1
    ensures
      var acc' := Consider(acc, SubTail(subs[k], g, version), allow);
      && ScanFrom(subs[k..], g, version, allow, acc) == ScanFrom(subs[k + 1..], g, version, allow, acc')
      && Scanned(subs[k..], g, version, allow, acc) == 1 + Scanned(subs[k + 1..], g, version, allow, acc')
  {
    hide SubTail, Consider;
    assert subs[k..][0] == subs[k] && subs[k..][1..] == subs[k + 1..];
  }

  lemma ScanStep(subs: seq<Subtable>, f: Bits, wc: Option<Bits>, wc': Option<Bits>, version: nat, allow: bool,
                 k: nat, acc: Scan, tail: seq<Match>)
    requires SameSize(subs, f) && k < |subs| && ScannedTo(subs, f, wc, version, allow, k, acc)
    requires subs[k].maxPriority >= HardPriority(acc.hard) + 1
    requires Wider(wc, wc') && forall g :: Alike(f, g, wc') ==> |g| == |f| && SubTail(subs[k], g, version) == tail
    requires Alike(f, f, wc')
    ensures ScannedTo(subs, f, wc', version, allow, k + 1, Consider(acc, tail, allow))
  {
    hide SubTail, Consider, ScanFrom, Scanned, Alike, Wider;
    ScansOn(subs, f, version, allow, k, acc);
    forall g | Alike(f, g, wc')
      ensures |g| == |f|
      ensures ScanFrom(subs, g, version, allow, Scan(None, []))
           == ScanFrom(subs[k + 1..], g, version, allow, Consider(acc, tail, allow))
    {
      AlikeNarrow(f, g, wc, wc');
      ScansOn(subs, g, version, allow, k, acc);
    }
  }

  lemma ScanEnd(subs: seq<Subtable>, f: Bits, wc: Option<Bits>, version: nat, allow: bool, k: nat, acc: Scan)
    requires SameSize(subs, f) && k <= |subs| && ScannedTo(subs, f, wc, version, allow, k, acc)
    requires k < |subs| ==> subs[k].maxPriority < HardPriority(acc.hard) + 1
    ensures forall g :: Alike(f, g, wc) ==> |g| == |f| && ScanFrom(subs, g, version, allow, Scan(None, [])) == acc
    ensures Scanned(subs, f, version, allow, Scan(None, [])) == k
  {
  }

  /** A soft match is a list of equal rules from a conjunctive rule on; `[]` is one that is gone. */
  predicate IsSoft(tail: seq<Match>) {
    tail != [] ==> tail[0].conjs != []
  }

  predicate IsLive(tail: seq<Match>) {
    tail != [] && tail[0].conjs != []
  }

  predicate SoftOk(soft: seq<seq<Match>>) {
    forall k :: 0 <= k < |soft| ==> IsSoft(soft[k])
  }

  predicate LiveOk(soft: seq<seq<Match>>) {
    forall k :: 0 <= k < |soft| ==> IsLive(soft[k])
  }

  /** `wc'` is `wc` with bits of the first `k` subtables. */
  ghost predicate GrownBy(cfg: Config, subs: seq<Subtable>, k: nat, wc: Option<Bits>, wc': Option<Bits>)
    requires k <= |subs|
  {
    Wider(wc, wc') && MaskOk(cfg, wc') && Needed(subs[..k], wc, wc')
  }

  lemma GrowsOn(cfg: Config, subs: seq<Subtable>, k: nat, wc: Option<Bits>, wc1: Option<Bits>, wc2: Option<Bits>)
    requires k < |subs| && GrownBy(cfg, subs, k, wc, wc1)
    requires Wider(wc1, wc2) && MaskOk(cfg, wc2) && Needed(subs[..k + 1], wc1, wc2)
    ensures GrownBy(cfg, subs, k + 1, wc, wc2)
  {
    hide Wider, Needed;
    NeededMore(subs, k, k + 1, wc, wc1);
    NeededTwice(subs[..k + 1], wc, wc1, wc2);
    WiderTwice(wc, wc1, wc2);
  }

  method ScanOne(cfg: Config, subs: seq<Subtable>, tries: seq<Trie>, version: nat, f: Bits, ctx: seq<TrieCtx>,
                 ghost wc0: Option<Bits>, wc: Option<Bits>, allow: bool, k: nat, hard: Option<Match>, soft: seq<seq<Match>>)
    returns (ctx': seq<TrieCtx>, wc': Option<Bits>, hard': Option<Match>, soft': seq<seq<Match>>)
    requires Indexed(cfg, subs, tries) && IsFlow(cfg, f) && CtxOk(cfg, tries, ctx, f)
    requires k < |subs| && subs[k].maxPriority >= HardPriority(hard) + 1 && GrownBy(cfg, subs, k, wc0, wc)
    requires ScannedTo(subs, f, wc, version, allow, k, Scan(hard, soft)) && LiveOk(soft)
    ensures CtxOk(cfg, tries, ctx', f) && LiveOk(soft') && GrownBy(cfg, subs, k + 1, wc0, wc')
    ensures ScannedTo(subs, f, wc', version, allow, k + 1, Scan(hard', soft'))
  {
    hide Needed, Alike, SubTail, OnlyFrom, CtxOk, ScannedTo;
    var tail;
    tail, ctx', wc' := SearchSubtable(cfg, tries, subs[k], version, f, ctx, wc);
    NeededOnce(subs[..k + 1], k, wc, wc');
    WiderMask(cfg, f, wc, wc');
    GrowsOn(cfg, subs, k, wc0, wc, wc');
    ScanStep(subs, f, wc, wc', version, allow, k, Scan(hard, soft), tail);
    hard', soft' := hard, soft;
    if tail != [] && tail[0].priority > HardPriority(hard) {
      if tail[0].conjs == [] {
        hard' := Some(tail[0]);
      } else if allow {
        soft' := soft + [tail];
      }
    }
  }

  lemma ScanStart(cfg: Config, subs: seq<Subtable>, tries: seq<Trie>, f: Bits, wc: Option<Bits>, version: nat, allow: bool)
    requires Indexed(cfg, subs, tries) && IsFlow(cfg, f) && MaskOk(cfg, wc)
    ensures SameSize(subs, f) && ValidConfig(cfg) && |cfg.fields| == |tries|
    ensures CtxOk(cfg, tries, seq(|tries|, j => Pending), f)
    ensures ScannedTo(subs, f, wc, version, allow, 0, Scan(None, [])) && GrownBy(cfg, subs, 0, wc, wc)
  {
    assert subs[0..] == subs;
  }

  method ScanSubtables(cfg: Config, subs: seq<Subtable>, tries: seq<Trie>, version: nat, f: Bits,
                       wc: Option<Bits>, allow: bool)
    returns (hard: Option<Match>, soft: seq<seq<Match>>, wc': Option<Bits>)
    requires Indexed(cfg, subs, tries) && IsFlow(cfg, f) && MaskOk(cfg, wc)
    ensures Wider(wc, wc') && Needed(subs, wc, wc') && LiveOk(soft)
    ensures forall g :: Alike(f, g, wc') ==>
      |g| == |f| && ScanFrom(subs, g, version, allow, Scan(None, [])) == Scan(hard, soft)
    ensures SameSize(subs, f) && Needed(subs[..Scanned(subs, f, version, allow, Scan(None, []))], wc, wc')
  {
    ScanStart(cfg, subs, tries, f, wc, version, allow);
    hide Indexed, CtxOk, ScannedTo, SameSize, ValidConfig, Scanned, ScanFrom, Alike, LiveOk, GrownBy, Needed;
    var ctx := seq(|tries|, j => Pending);
    hard, soft, wc' := None, [], wc;
    var k := 0;
    while k < |subs| && subs[k].maxPriority >= HardPriority(hard) + 1
      invariant 0 <= k <= |subs| && CtxOk(cfg, tries, ctx, f) && LiveOk(soft) && GrownBy(cfg, subs, k, wc, wc')
      invariant ScannedTo(subs, f, wc', version, allow, k, Scan(hard, soft))
    {
      ctx, wc', hard, soft := ScanOne(cfg, subs, tries, version, f, ctx, wc, wc', allow, k, hard, soft);
      k := k + 1;
    }
    ScanEnd(subs, f, wc', version, allow, k, Scan(hard, soft));
    GrownAll(cfg, subs, k, wc, wc');
  }

  lemma GrownAll(cfg: Config, subs: seq<Subtable>, k: nat, wc: Option<Bits>, wc': Option<Bits>)
    requires k <= |subs| && GrownBy(cfg, subs, k, wc, wc')
    ensures Wider(wc, wc') && Needed(subs[..k], wc, wc') && Needed(subs, wc, wc')
  {
    NeededMore(subs, k, k, wc, wc');
  }

  function FewestClauses(conjs: seq<Conjunction>): nat
    requires conjs != []
  {
    var n := conjs[0].nClauses;
    if |conjs| == 1 then n
    else
      var m := FewestClauses(conjs[1..]);
      if n < m then n else m
  }

  lemma {:induction false} TooManyClauses(conjs: seq<Conjunction>, maxClauses: nat, matches: Clauses)
    requires conjs != [] ==> maxClauses < FewestClauses(conjs)
    ensures FindConjunctive(conjs, maxClauses, matches) == (None, matches)
    decreases |conjs|
  {
    if conjs != [] {
      TooManyClauses(conjs[1..], maxClauses, matches);
    }
  }

  method FindConjunctiveMatch(conjs: seq<Conjunction>, maxClauses: nat, matches: Clauses)
    returns (id: Option<nat>, matches': Clauses)
    requires conjs != []
    ensures (id, matches') == FindConjunctive(conjs, maxClauses, matches)
  {
    matches' := matches;
    if maxClauses < FewestClauses(conjs) {
      TooManyClauses(conjs, maxClauses, matches);
      return None, matches';
    }
    for i := 0 to |conjs|
      invariant FindConjunctive(conjs, maxClauses, matches) == FindConjunctive(conjs[i..], maxClauses, matches')
    {
      var c := conjs[i];
      assert conjs[i..][0] == c && conjs[i..][1..] == conjs[i + 1..];
      if c.nClauses <= maxClauses {
        matches' := matches'[c.id := Record(c, matches')];
        if matches'[c.id] == HighBits(0) {
          return Some(c.id), matches';
        }
      }
    }
    id := None;
  }

  lemma AlikeConjId(cfg: Config, f: Bits, g: Bits, id: nat, wc: Option<Bits>)
    requires ValidConfig(cfg) && IsFlow(cfg, f) && IsFlow(cfg, g) && Alike(f, g, wc)
    ensures Alike(SetConjId(cfg, f, id), SetConjId(cfg, g, id), wc)
  {
  }

  lemma AlikeNarrow(f: Bits, g: Bits, wc: Option<Bits>, wc': Option<Bits>)
    requires Wider(wc, wc') && Alike(f, g, wc')
    ensures Alike(f, g, wc)
  {
  }

  /** Looks a completed conjunction up. */
  method TryConjunction(cfg: Config, subs: seq<Subtable>, tries: seq<Trie>, version: nat, f: Bits, id: nat,
                        wc: Option<Bits>)
    returns (rule: Option<Match>, wc': Option<Bits>)
    requires Indexed(cfg, subs, tries) && IsFlow(cfg, f) && MaskOk(cfg, wc)
    ensures Wider(wc, wc') && MaskOk(cfg, wc') && Needed(subs, wc, wc') && SameSize(subs, f) && Alike(f, f, wc')
    ensures forall g :: Alike(f, g, wc') ==>
      |g| == |f| && Alike(f, g, wc) && PlainLookup(subs, SetConjId(cfg, g, id), version) == rule
  {
    hide Needed;
    var none;
    rule, none, wc' := ScanSubtables(cfg, subs, tries, version, SetConjId(cfg, f, id), wc, false);
    forall g | Alike(f, g, wc')
      ensures |g| == |f| && Alike(f, g, wc) && PlainLookup(subs, SetConjId(cfg, g, id), version) == rule
    {
      AlikeNarrow(f, g, wc, wc');
      AlikeConjId(cfg, f, g, id, wc');
    }
  }

  /** For every flow alike, the round comes to what its part from the `i`-th soft match on does; and `ids` are
      the conjunctions looked up before it. */
  ghost predicate RoundTo(cfg: Config, subs: seq<Subtable>, f: Bits, version: nat, soft: seq<seq<Match>>,
                          pri: int, n: nat, i: nat, matches: Clauses, wc: Option<Bits>, ids: seq<nat>)
    requires ValidConfig(cfg) && IsFlow(cfg, f) && SameSize(subs, f) && i <= |soft|
    requires forall k :: 0 <= k < |soft| ==> soft[k] != []
  {
    && (forall g :: Alike(f, g, wc) ==>
         |g| == |f| && Round(cfg, subs, g, version, soft, pri, n, 0, map[])
                       == Round(cfg, subs, g, version, soft, pri, n, i, matches))
    && LookedUp(cfg, subs, f, version, Candidates(soft, pri, n, 0, map[]))
       == ids + LookedUp(cfg, subs, f, version, Candidates(soft, pri, n, i, matches))
  }

  lemma RoundStarts(cfg: Config, subs: seq<Subtable>, tries: seq<Trie>, f: Bits, version: nat, soft: seq<seq<Match>>,
                    pri: int, n: nat, wc: Option<Bits>)
    requires Indexed(cfg, subs, tries) && IsFlow(cfg, f) && MaskOk(cfg, wc)
    requires forall k :: 0 <= k < |soft| ==> soft[k] != []
    ensures ValidConfig(cfg) && SameSize(subs, f)
    ensures RoundTo(cfg, subs, f, version, soft, pri, n, 0, map[], wc, [])
  {
    hide Round, LookedUp, Candidates;
  }

  lemma RoundEnds(cfg: Config, subs: seq<Subtable>, f: Bits, version: nat, soft: seq<seq<Match>>,
                  pri: int, n: nat, matches: Clauses, wc: Option<Bits>, ids: seq<nat>)
    requires ValidConfig(cfg) && IsFlow(cfg, f) && SameSize(subs, f)
    requires forall k :: 0 <= k < |soft| ==> soft[k] != []
    requires RoundTo(cfg, subs, f, version, soft, pri, n, |soft|, matches, wc, ids)
    ensures LookedUp(cfg, subs, f, version, Candidates(soft, pri, n, 0, map[])) == ids
    ensures forall g :: Alike(f, g, wc) ==>
      |g| == |f| && Round(cfg, subs, g, version, soft, pri, n, 0, map[]) == None
  {
    hide Alike, PlainLookup, LookedUp, Candidates;
    NoneLeft(cfg, subs, f, version, soft, pri, n, matches);
  }

  /** Nothing is looked up for the `i`-th soft match. */
  lemma RoundPasses(cfg: Config, subs: seq<Subtable>, f: Bits, version: nat, soft: seq<seq<Match>>,
                    pri: int, n: nat, i: nat, matches: Clauses, matches': Clauses, wc: Option<Bits>, ids: seq<nat>)
    requires ValidConfig(cfg) && IsFlow(cfg, f) && SameSize(subs, f) && i < |soft|
    requires forall k :: 0 <= k < |soft| ==> soft[k] != []
    requires RoundTo(cfg, subs, f, version, soft, pri, n, i, matches, wc, ids)
    requires if soft[i][0].priority != pri then matches' == matches
             else FindConjunctive(soft[i][0].conjs, n, matches) == (None, matches')
    ensures RoundTo(cfg, subs, f, version, soft, pri, n, i + 1, matches', wc, ids)
  {
    hide PlainLookup, SetConjId, FindConjunctive, Candidates, LookedUp, Alike;
    LookedUpStep(cfg, subs, f, version, soft, pri, n, i, matches);
  }

  /** For the `i`-th soft match conjunction `id` is looked up, which leads to `rule`. */
  lemma RoundTriesOne(cfg: Config, subs: seq<Subtable>, f: Bits, version: nat, soft: seq<seq<Match>>,
                   pri: int, n: nat, i: nat, matches: Clauses, matches': Clauses, wc: Option<Bits>, ids: seq<nat>,
                   id: nat, wc': Option<Bits>, rule: Option<Match>)
    requires ValidConfig(cfg) && IsFlow(cfg, f) && SameSize(subs, f) && i < |soft|
    requires forall k :: 0 <= k < |soft| ==> soft[k] != []
    requires RoundTo(cfg, subs, f, version, soft, pri, n, i, matches, wc, ids)
    requires soft[i][0].priority == pri && FindConjunctive(soft[i][0].conjs, n, matches) == (Some(id), matches')
    requires Alike(f, f, wc')
    requires forall g :: Alike(f, g, wc') ==>
      |g| == |f| && Alike(f, g, wc) && PlainLookup(subs, SetConjId(cfg, g, id), version) == rule
    ensures rule.None? ==> RoundTo(cfg, subs, f, version, soft, pri, n, i + 1, matches', wc', ids + [id])
    ensures rule.Some? ==> LookedUp(cfg, subs, f, version, Candidates(soft, pri, n, 0, map[])) == ids + [id]
    ensures rule.Some? ==> forall g :: Alike(f, g, wc') ==>
      |g| == |f| && Round(cfg, subs, g, version, soft, pri, n, 0, map[]) == rule
  {
    hide PlainLookup, SetConjId, FindConjunctive, Candidates, LookedUp, Alike;
    LookedUpStep(cfg, subs, f, version, soft, pri, n, i, matches);
    var next := LookedUp(cfg, subs, f, version, Candidates(soft, pri, n, i + 1, matches'));
    assert ids + ([id] + next) == ids + [id] + next;
  }

  method TryRound(cfg: Config, subs: seq<Subtable>, tries: seq<Trie>, version: nat, f: Bits,
                  soft: seq<seq<Match>>, pri: int, n: nat, wc: Option<Bits>)
    returns (rule: Option<Match>, wc': Option<Bits>, ghost ids: seq<nat>)
    requires Indexed(cfg, subs, tries) && IsFlow(cfg, f) && MaskOk(cfg, wc)
    requires forall k :: 0 <= k < |soft| ==> soft[k] != [] && soft[k][0].conjs != []
    ensures Wider(wc, wc') && Needed(subs, wc, wc')
    ensures forall g :: Alike(f, g, wc') ==>
      |g| == |f| && Round(cfg, subs, g, version, soft, pri, n, 0, map[]) == rule
    ensures SameSize(subs, f) && ids == LookedUp(cfg, subs, f, version, Candidates(soft, pri, n, 0, map[]))
    ensures ids == [] ==> wc' == wc
  {
    hide Needed, Candidates, LookedUp, FindConjunctive, PlainLookup, RoundTo, Round, Alike, Within, Indexed;
    NeededSame(subs, wc);
    WiderSame(wc);
    RoundStarts(cfg, subs, tries, f, version, soft, pri, n, wc);
    wc', ids := wc, [];
    var matches: Clauses := map[];
    for i := 0 to |soft|
      invariant Wider(wc, wc') && MaskOk(cfg, wc') && Needed(subs, wc, wc') && (ids == [] ==> wc' == wc)
      invariant RoundTo(cfg, subs, f, version, soft, pri, n, i, matches, wc', ids)
    {
      if soft[i][0].priority == pri {
        ghost var before, had, done := wc', matches, ids;
        var id;
        id, matches := FindConjunctiveMatch(soft[i][0].conjs, n, matches);
        if id.Some? {
          rule, wc' := TryConjunction(cfg, subs, tries, version, f, id.value, wc');
          NeededTwice(subs, wc, before, wc');
          WiderTwice(wc, before, wc');
          ids := ids + [id.value];
          RoundTriesOne(cfg, subs, f, version, soft, pri, n, i, had, matches, before, done, id.value, wc', rule);
          if rule.Some? {
            return;
          }
        } else {
          RoundPasses(cfg, subs, f, version, soft, pri, n, i, had, matches, wc', ids);
        }
      } else {
        RoundPasses(cfg, subs, f, version, soft, pri, n, i, matches, matches, wc', ids);
      }
    }
    RoundEnds(cfg, subs, f, version, soft, pri, n, matches, wc', ids);
    rule := None;
  }

  method DeleteDead(soft: seq<seq<Match>>, pri: int) returns (r: seq<seq<Match>>)
    requires SoftOk(soft)
    ensures r == DropDead(soft, 0, pri) && SoftOk(r)
  {
    r := soft;
    var i := 0;
    while i < |r|
      invariant 0 <= i <= |r| && SoftOk(r)
      invariant forall k :: 0 <= k < i ==> r[k] != [] && r[k][0].priority > pri
      invariant DropDead(soft, 0, pri) == DropDead(r, i, pri)
      decreases |r| - i
    {
      if r[i] == [] || r[i][0].priority <= pri {
        r := r[i := r[|r| - 1]][..|r| - 1];
      } else {
        i := i + 1;
      }
    }
  }

  method FindTop(soft: seq<seq<Match>>) returns (pri: int, n: nat)
    requires forall k :: 0 <= k < |soft| ==> soft[k] != []
    ensures pri == TopPriority(soft) && n == CountAt(soft, pri)
  {
    pri, n := INT_MIN, 0;
    for i := 0 to |soft|
      invariant pri == TopPriority(soft[..i]) && n == CountAt(soft[..i], pri)
    {
      assert soft[..i + 1][..i] == soft[..i];
      if soft[i][0].priority > pri {
        NoneAbove(soft[..i], soft[i][0].priority);
        pri, n := soft[i][0].priority, 1;
      } else if soft[i][0].priority == pri {
        n := n + 1;
      }
    }
    assert soft[..|soft|] == soft;
  }

  lemma {:induction false} NoneAbove(soft: seq<seq<Match>>, pri: int)
    requires (forall k :: 0 <= k < |soft| ==> soft[k] != []) && TopPriority(soft) < pri
    ensures CountAt(soft, pri) == 0
    decreases |soft|
  {
    if soft != [] {
      NoneAbove(soft[..|soft| - 1], pri);
    }
  }

  method StepDown(hard: Option<Match>, soft: seq<seq<Match>>, version: nat, pri: int)
    returns (hard': Option<Match>, soft': seq<seq<Match>>)
    requires SoftOk(soft) && forall k :: 0 <= k < |soft| ==> soft[k] != []
    ensures Scan(hard', soft') == FallBack(Scan(hard, soft), version, pri, 0) && SoftOk(soft')
  {
    hide VisibleFrom;
    hard', soft' := hard, soft;
    for i := 0 to |soft|
      invariant |soft'| == |soft| && SoftOk(soft')
      invariant forall k :: i <= k < |soft'| ==> soft'[k] != []
      invariant FallBack(Scan(hard, soft), version, pri, 0) == FallBack(Scan(hard', soft'), version, pri, i)
    {
      if soft'[i][0].priority == pri {
        ghost var before := Scan(hard', soft');
        var next := VisibleFrom(soft'[i][1..], version);
        if next != [] && next[0].conjs == [] {
          soft' := soft'[i := []];
          if next[0].priority > HardPriority(hard') {
            hard' := Some(next[0]);
          }
        } else {
          soft' := soft'[i := next];
        }
        assert Scan(hard', soft') == StepOne(before, version, i);
      }
    }
  }

  lemma {:induction false} AllDead(soft: seq<seq<Match>>, pri: int)
    requires forall k :: 0 <= k < |soft| ==> soft[k] != [] && soft[k][0].priority <= pri
    ensures DropDead(soft, 0, pri) == []
    decreases |soft|
  {
    if soft != [] {
      AllDead(soft[0 := soft[|soft| - 1]][..|soft| - 1], pri);
    }
  }

  /** For every flow treated as `f` is, the lookup comes down to the soft match loop from `acc` on. */
  ghost predicate SearchedTo(cfg: Config, subs: seq<Subtable>, f: Bits, wc: Option<Bits>, version: nat, acc: Scan)
    requires ValidConfig(cfg) && IsFlow(cfg, f) && SameSize(subs, f)
  {
    forall g :: Alike(f, g, wc) ==> |g| == |f| && Lookup(cfg, subs, g, version) == SoftSearch(cfg, subs, g, version, acc)
  }

  /** `rule` is the answer for every flow treated as `f` is. */
  ghost predicate Answered(cfg: Config, subs: seq<Subtable>, f: Bits, wc: Option<Bits>, version: nat, rule: Option<Match>)
    requires ValidConfig(cfg) && IsFlow(cfg, f) && SameSize(subs, f)
  {
    forall g :: Alike(f, g, wc) ==> |g| == |f| && Lookup(cfg, subs, g, version) == rule
  }

  lemma SearchStarts(cfg: Config, subs: seq<Subtable>, f: Bits, wc: Option<Bits>, version: nat, acc: Scan)
    requires ValidConfig(cfg) && IsFlow(cfg, f) && SameSize(subs, f)
    requires forall g :: Alike(f, g, wc) ==> |g| == |f| && ScanFrom(subs, g, version, true, Scan(None, [])) == acc
    ensures SearchedTo(cfg, subs, f, wc, version, acc)
  {
    hide SoftSearch, ScanFrom, Alike;
  }

  lemma SoftEnd(cfg: Config, subs: seq<Subtable>, f: Bits, wc: Option<Bits>, version: nat, acc: Scan)
    requires ValidConfig(cfg) && IsFlow(cfg, f) && SameSize(subs, f) && SearchedTo(cfg, subs, f, wc, version, acc)
    requires DropDead(acc.soft, 0, HardPriority(acc.hard)) == []
    ensures Answered(cfg, subs, f, wc, version, acc.hard)
  {
  }

  lemma SoftStep(cfg: Config, subs: seq<Subtable>, f: Bits, wc: Option<Bits>, wc': Option<Bits>, version: nat,
                 acc: Scan, soft: seq<seq<Match>>, rule: Option<Match>)
    requires ValidConfig(cfg) && IsFlow(cfg, f) && SameSize(subs, f) && SearchedTo(cfg, subs, f, wc, version, acc)
    requires soft == DropDead(acc.soft, 0, HardPriority(acc.hard)) && soft != [] && Wider(wc, wc')
    requires
      var pri := TopPriority(soft);
      forall g :: Alike(f, g, wc') ==>
        |g| == |f| && Round(cfg, subs, g, version, soft, pri, CountAt(soft, pri), 0, map[]) == rule
    ensures rule.Some? ==> Answered(cfg, subs, f, wc', version, rule)
    ensures rule.None? ==>
      SearchedTo(cfg, subs, f, wc', version, FallBack(Scan(acc.hard, soft), version, TopPriority(soft), 0))
  {
    forall g | Alike(f, g, wc')
      ensures |g| == |f|
      ensures Lookup(cfg, subs, g, version) ==
        if rule.Some? then rule
        else SoftSearch(cfg, subs, g, version, FallBack(Scan(acc.hard, soft), version, TopPriority(soft), 0))
    {
      AlikeNarrow(f, g, wc, wc');
    }
  }

  /** What is looked up is `tried`, and then what the search looks up from `acc` on. */
  ghost predicate TriedTo(cfg: Config, subs: seq<Subtable>, f: Bits, version: nat, tried: seq<Try>, acc: Scan)
    requires ValidConfig(cfg) && IsFlow(cfg, f) && SameSize(subs, f)
  {
    Tried(cfg, subs, f, version, ScanFrom(subs, f, version, true, Scan(None, []))) ==
      tried + Tried(cfg, subs, f, version, acc)
  }

  lemma TriedNone(cfg: Config, subs: seq<Subtable>, f: Bits, version: nat, acc: Scan)
    requires ValidConfig(cfg) && IsFlow(cfg, f) && SameSize(subs, f)
    requires acc == ScanFrom(subs, f, version, true, Scan(None, []))
    ensures TriedTo(cfg, subs, f, version, [], acc)
  {
    hide Tried;
    assert [] + Tried(cfg, subs, f, version, acc) == Tried(cfg, subs, f, version, acc);
  }

  lemma TriedEnd(cfg: Config, subs: seq<Subtable>, f: Bits, version: nat, tried: seq<Try>, acc: Scan)
    requires ValidConfig(cfg) && IsFlow(cfg, f) && SameSize(subs, f) && TriedTo(cfg, subs, f, version, tried, acc)
    requires DropDead(acc.soft, 0, HardPriority(acc.hard)) == []
    ensures tried == Tried(cfg, subs, f, version, ScanFrom(subs, f, version, true, Scan(None, [])))
  {
    assert tried + [] == tried;
  }

  lemma TriedStep(cfg: Config, subs: seq<Subtable>, f: Bits, version: nat, tried: seq<Try>, acc: Scan)
    requires ValidConfig(cfg) && IsFlow(cfg, f) && SameSize(subs, f) && TriedTo(cfg, subs, f, version, tried, acc)
    requires DropDead(acc.soft, 0, HardPriority(acc.hard)) != []
    ensures
      var soft := DropDead(acc.soft, 0, HardPriority(acc.hard));
      var pri := TopPriority(soft);
      var ids := LookedUp(cfg, subs, f, version, Candidates(soft, pri, CountAt(soft, pri), 0, map[]));
      if Round(cfg, subs, f, version, soft, pri, CountAt(soft, pri), 0, map[]).Some?
      then tried + TriesOf(ids, pri) == Tried(cfg, subs, f, version, ScanFrom(subs, f, version, true, Scan(None, [])))
      else TriedTo(cfg, subs, f, version, tried + TriesOf(ids, pri), FallBack(Scan(acc.hard, soft), version, pri, 0))
  {
    hide LookedUp, Candidates, Round, TopPriority, CountAt, FallBack, DropDead, Weight;
    var soft := DropDead(acc.soft, 0, HardPriority(acc.hard));
    var pri := TopPriority(soft);
    var now := TriesOf(LookedUp(cfg, subs, f, version, Candidates(soft, pri, CountAt(soft, pri), 0, map[])), pri);
    var rest := if Round(cfg, subs, f, version, soft, pri, CountAt(soft, pri), 0, map[]).Some? then []
                else Tried(cfg, subs, f, version, FallBack(Scan(acc.hard, soft), version, pri, 0));
    assert Tried(cfg, subs, f, version, acc) == now + rest;
    assert tried + (now + rest) == (tried + now) + rest;
    assert now + [] == now;
  }

  /** Looks `f` up.  The rule found is the one that `Lookup` gives for `f`, and for every flow that
      agrees with `f` on the mask returned. */
  method ClassifierLookup(cfg: Config, subs: seq<Subtable>, tries: seq<Trie>, version: nat, f: Bits, wc: Option<Bits>)
    returns (rule: Option<Match>, wc': Option<Bits>, ghost tried: seq<Try>)
    requires Indexed(cfg, subs, tries) && IsFlow(cfg, f) && MaskOk(cfg, wc)
    ensures Wider(wc, wc') && Needed(subs, wc, wc')
    ensures Answered(cfg, subs, f, wc', version, rule)
    ensures tried == Tried(cfg, subs, f, version, ScanFrom(subs, f, version, true, Scan(None, [])))
    ensures tried == [] ==> Needed(subs[..Scanned(subs, f, version, true, Scan(None, []))], wc, wc')
  {
    hide Scanned, Needed, Tried, TriedTo, LookedUp, Candidates, SearchedTo, Answered, SoftSearch, Round, FallBack, Weight, DropDead,
      TopPriority, CountAt, Within, Alike;
    WiderSame(wc);
    tried := [];
    var hard, soft;
    hard, soft, wc' := ScanSubtables(cfg, subs, tries, version, f, wc, true);
    ghost var scanned := wc';
    SearchStarts(cfg, subs, f, wc', version, Scan(hard, soft));
    WiderMask(cfg, f, wc, wc');
    TriedNone(cfg, subs, f, version, Scan(hard, soft));
    var softPri, _ := FindTop(soft);
    if HardPriority(hard) >= softPri {
      TopPriorityIsTop(soft);
      AllDead(soft, HardPriority(hard));
      SoftEnd(cfg, subs, f, wc', version, Scan(hard, soft));
      TriedEnd(cfg, subs, f, version, tried, Scan(hard, soft));
      return hard, wc', tried;
    }
    while true
      invariant Wider(wc, wc') && MaskOk(cfg, wc') && Needed(subs, wc, wc') && SoftOk(soft)
      invariant SearchedTo(cfg, subs, f, wc', version, Scan(hard, soft))
      invariant TriedTo(cfg, subs, f, version, tried, Scan(hard, soft)) && (tried == [] ==> wc' == scanned)
      decreases Weight(soft)
    {
      ghost var acc, before := Scan(hard, soft), wc';
      soft := DeleteDead(soft, HardPriority(hard));
      if soft == [] {
        SoftEnd(cfg, subs, f, wc', version, acc);
        TriedEnd(cfg, subs, f, version, tried, acc);
        return hard, wc', tried;
      }
      var pri, n := FindTop(soft);
      ghost var ids;
      rule, wc', ids := TryRound(cfg, subs, tries, version, f, soft, pri, n, wc');
      TriedStep(cfg, subs, f, version, tried, acc);
      tried := tried + TriesOf(ids, pri);
      NeededTwice(subs, wc, before, wc');
      WiderTwice(wc, before, wc');
      WiderMask(cfg, f, wc, wc');
      SoftStep(cfg, subs, f, before, wc', version, acc, soft, rule);
      if rule.Some? {
        return;
      }
      DropDeadWeight(acc.soft, 0, HardPriority(acc.hard));
      TopPriorityIsTop(soft);
      FallBackWeight(Scan(hard, soft), version, pri, 0);
      hard, soft := StepDown(hard, soft, version, pri);
    }
  }
}
