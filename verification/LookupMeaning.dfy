/** What the rule that a lookup finds has to do with the rules in the classifier: without conjunctions
    it is a visible matching rule of the highest priority.  For conjunctions, the invariant of the soft
    match loop, and what the lookup with a conjunction id finds. */
module LookupMeaning {
  import opened Bits
  import opened ClassifierLookup
  import opened Flows
  import opened Subtables
  import opened Wrappers

  // ----- the rules that match

  /** `m` is a visible rule that matches `f`. */
  ghost predicate Hit(subs: seq<Subtable>, f: Bits, version: nat, m: Match)
    requires SameSize(subs, f)
  {
    exists k, j :: 0 <= k < |subs| && 0 <= j < |subs[k].heads| && InHead(subs[k], j, f, version, m)
  }

  predicate InHead(st: Subtable, j: nat, f: Bits, version: nat, m: Match)
    requires |st.mask| == |f| && j < |st.heads|
  {
    st.heads[j].flow == And(f, st.mask) && m in st.heads[j].list && m.VisibleIn(version)
  }

  lemma VisibleKept(list: seq<Match>, version: nat, m: Match)
    requires m in list && m.VisibleIn(version)
    ensures m in VisibleFrom(list, version)
  {
    var i :| 0 <= i < |list| && list[i] == m;
    var r := VisibleFrom(list, version);
    assert i >= |list| - |r|;
    assert r[i - (|list| - |r|)] == m;
  }

  lemma {:induction false} HeadKept(heads: seq<Head>, key: Bits, version: nat, j: nat, m: Match)
    requires forall i, k :: 0 <= i < k < |heads| ==> heads[i].flow != heads[k].flow
    requires j < |heads| && heads[j].flow == key && m in heads[j].list && m.VisibleIn(version)
    ensures m in FindHead(heads, key, version)
    decreases |heads|
  {
    if j == 0 {
      VisibleKept(heads[0].list, version, m);
    } else {
      HeadKept(heads[1..], key, version, j - 1, m);
    }
  }

  /** What `FindHead` gives is the end of the list of a head with that key. */
  lemma {:induction false} HeadFound(heads: seq<Head>, key: Bits, version: nat) returns (j: nat)
    requires FindHead(heads, key, version) != []
    ensures j < |heads| && heads[j].flow == key && FindHead(heads, key, version) == VisibleFrom(heads[j].list, version)
    decreases |heads|
  {
    hide VisibleFrom;
    if heads[0].flow == key && VisibleFrom(heads[0].list, version) != [] {
      j := 0;
    } else {
      j := HeadFound(heads[1..], key, version);
      j := j + 1;
    }
  }

  /** What lookups rely on beyond the indices: the subtables come in order of the highest priority
      they hold. */
  ghost predicate Ordered(subs: seq<Subtable>) {
    && (forall k :: 0 <= k < |subs| ==> HeadsOk(subs[k].mask, subs[k].heads) && Bounded(subs[k]))
    && (forall j, k :: 0 <= j < k < |subs| ==> subs[j].maxPriority >= subs[k].maxPriority)
  }

  /** No two rules of a list that are visible together have the same priority. */
  predicate Distinct(list: seq<Match>, version: nat) {
    forall i, j :: 0 <= i < j < |list| && list[i].VisibleIn(version) && list[j].VisibleIn(version) ==>
      list[i].priority > list[j].priority
  }

  ghost predicate AllDistinct(subs: seq<Subtable>, version: nat) {
    forall k, j :: 0 <= k < |subs| && 0 <= j < |subs[k].heads| ==> Distinct(subs[k].heads[j].list, version)
  }

  predicate Bounded(st: Subtable) {
    forall j :: 0 <= j < |st.heads| ==> st.heads[j].list != [] ==> st.heads[j].list[0].priority <= st.maxPriority
  }

  /** A subtable's answer is the end of one of its lists. */
  lemma TailOfHead(st: Subtable, f: Bits, version: nat) returns (j: nat, d: nat)
    requires |st.mask| == |f| && SubTail(st, f, version) != []
    ensures j < |st.heads| && d < |st.heads[j].list| && st.heads[j].flow == And(f, st.mask)
    ensures SubTail(st, f, version) == st.heads[j].list[d..] && st.heads[j].list[d].VisibleIn(version)
  {
    j := HeadFound(st.heads, And(f, st.mask), version);
    d := |st.heads[j].list| - |SubTail(st, f, version)|;
  }

  predicate EndOf(s: seq<Match>, list: seq<Match>) {
    |s| <= |list| && s == list[|list| - |s|..]
  }

  /** `s` is the end of one of the lists of equal rules. */
  ghost predicate InList(subs: seq<Subtable>, s: seq<Match>) {
    exists k, j :: 0 <= k < |subs| && 0 <= j < |subs[k].heads| && EndOf(s, subs[k].heads[j].list)
  }

  /** A tail of rules, best first, all of them matching. */
  lemma TailFacts(subs: seq<Subtable>, f: Bits, version: nat, k: nat)
    requires SameSize(subs, f) && Ordered(subs) && k < |subs|
    ensures
      var tail := SubTail(subs[k], f, version);
      && Sorted(tail)
      && (tail != [] ==> tail[0].VisibleIn(version) && tail[0].priority <= subs[k].maxPriority && InList(subs, tail))
      && forall m :: m in tail && m.VisibleIn(version) ==> Hit(subs, f, version, m)
  {
    hide SubTail;
    var st := subs[k];
    var tail := SubTail(st, f, version);
    if tail != [] {
      var j, d := TailOfHead(st, f, version);
      assert HeadOk(st.mask, st.heads[j]);
      assert st.heads[j].list[0].priority <= st.maxPriority;
      assert EndOf(tail, st.heads[j].list);
      forall m | m in tail && m.VisibleIn(version) ensures Hit(subs, f, version, m) {
        assert InHead(st, j, f, version, m);
      }
    }
  }

  lemma HitTail(subs: seq<Subtable>, f: Bits, version: nat, m: Match) returns (k: nat)
    requires SameSize(subs, f) && Ordered(subs) && Hit(subs, f, version, m)
    ensures k < |subs| && m in SubTail(subs[k], f, version) && m.VisibleIn(version)
  {
    var k0, j :| 0 <= k0 < |subs| && 0 <= j < |subs[k0].heads| && InHead(subs[k0], j, f, version, m);
    HeadKept(subs[k0].heads, And(f, subs[k0].mask), version, j, m);
    k := k0;
  }

  // ----- the main loop

  /** The `k`-th subtable has nothing better than the hard match, or its best rule is conjunctive and
      is among the soft matches, if those are collected. */
  ghost predicate Covered(st: Subtable, f: Bits, version: nat, allow: bool, acc: Scan)
    requires |st.mask| == |f|
  {
    var tail := SubTail(st, f, version);
    tail != [] ==>
      || tail[0].priority <= HardPriority(acc.hard)
      || (tail[0].conjs != [] && (allow ==> tail in acc.soft))
  }

  /** `s` is a list of matching rules that starts at a visible conjunctive one. */
  ghost predicate SoftHit(subs: seq<Subtable>, f: Bits, version: nat, s: seq<Match>)
    requires SameSize(subs, f)
  {
    && s != [] && s[0].conjs != [] && s[0].VisibleIn(version) && Sorted(s) && InList(subs, s)
    && forall m :: m in s && m.VisibleIn(version) ==> Hit(subs, f, version, m)
  }

  ghost predicate HardHit(subs: seq<Subtable>, f: Bits, version: nat, hard: Option<Match>)
    requires SameSize(subs, f)
  {
    hard.Some? ==> Hit(subs, f, version, hard.value) && hard.value.conjs == []
  }

  ghost predicate ScanOk(subs: seq<Subtable>, f: Bits, version: nat, acc: Scan)
    requires SameSize(subs, f)
  {
    HardHit(subs, f, version, acc.hard) && forall s :: s in acc.soft ==> SoftHit(subs, f, version, s)
  }

  lemma ConsiderOk(subs: seq<Subtable>, f: Bits, version: nat, allow: bool, k: nat, acc: Scan)
    requires SameSize(subs, f) && Ordered(subs) && k < |subs| && ScanOk(subs, f, version, acc)
    ensures ScanOk(subs, f, version, Consider(acc, SubTail(subs[k], f, version), allow))
    ensures Covered(subs[k], f, version, allow, Consider(acc, SubTail(subs[k], f, version), allow))
  {
    hide SubTail;
    TailFacts(subs, f, version, k);
  }

  lemma StillCovered(st: Subtable, f: Bits, version: nat, allow: bool, acc: Scan, tail: seq<Match>)
    requires |st.mask| == |f| && Covered(st, f, version, allow, acc)
    ensures Covered(st, f, version, allow, Consider(acc, tail, allow))
  {
    hide SubTail;
  }

  /** The main loop covers every subtable, those it never comes to included. */
  lemma {:induction false} ScanCovers(subs: seq<Subtable>, f: Bits, version: nat, allow: bool, i: nat, acc: Scan)
    requires SameSize(subs, f) && Ordered(subs) && i <= |subs| && ScanOk(subs, f, version, acc)
    requires forall k :: 0 <= k < i ==> Covered(subs[k], f, version, allow, acc)
    ensures
      var end := ScanFrom(subs[i..], f, version, allow, acc);
      ScanOk(subs, f, version, end) && forall k :: 0 <= k < |subs| ==> Covered(subs[k], f, version, allow, end)
    decreases |subs| - i
  {
    hide SubTail, Covered, ScanOk, Ordered;
    if i < |subs| && subs[i].maxPriority >= HardPriority(acc.hard) + 1 {
      var acc' := Consider(acc, SubTail(subs[i], f, version), allow);
      ConsiderOk(subs, f, version, allow, i, acc);
      forall k | 0 <= k < i ensures Covered(subs[k], f, version, allow, acc') {
        StillCovered(subs[k], f, version, allow, acc, SubTail(subs[i], f, version));
      }
      assert subs[i..][0] == subs[i] && subs[i..][1..] == subs[i + 1..];
      ScanCovers(subs, f, version, allow, i + 1, acc');
    } else {
      forall k | 0 <= k < |subs| ensures Covered(subs[k], f, version, allow, acc) {
        if i <= k { BelowBreak(subs, f, version, allow, i, k, acc); }
      }
    }
  }

  lemma BelowBreak(subs: seq<Subtable>, f: Bits, version: nat, allow: bool, i: nat, k: nat, acc: Scan)
    requires SameSize(subs, f) && Ordered(subs) && i <= k < |subs|
    requires subs[i].maxPriority < HardPriority(acc.hard) + 1
    ensures Covered(subs[k], f, version, allow, acc)
  {
    hide SubTail;
    TailFacts(subs, f, version, k);
  }

  // ----- lookups without conjunctions

  /** `r` is a non-conjunctive rule of the highest priority among those that match, or nothing if
      there is none. */
  ghost predicate BestHard(subs: seq<Subtable>, f: Bits, version: nat, r: Option<Match>)
    requires SameSize(subs, f)
  {
    && HardHit(subs, f, version, r)
    && forall m :: Hit(subs, f, version, m) && m.conjs == [] ==> r.Some? && m.priority <= r.value.priority
  }

  lemma SoftIsConjunctive(subs: seq<Subtable>, f: Bits, version: nat, acc: Scan)
    requires SameSize(subs, f) && ScanOk(subs, f, version, acc)
    ensures acc.soft == [] || exists m :: Hit(subs, f, version, m) && m.conjs != []
  {
    if acc.soft != [] {
      assert SoftHit(subs, f, version, acc.soft[0]);
      assert Hit(subs, f, version, acc.soft[0][0]);
    }
  }

  /** Without conjunctive rules among those that match, a lookup gives nothing exactly when nothing
      visible matches, and otherwise a visible matching rule of the highest priority. */
  lemma LookupIsBest(cfg: Config, subs: seq<Subtable>, f: Bits, version: nat)
    requires ValidConfig(cfg) && IsFlow(cfg, f) && SameSize(subs, f) && Ordered(subs)
    requires forall m :: Hit(subs, f, version, m) ==> m.conjs == []
    ensures
      var r := Lookup(cfg, subs, f, version);
      && (r.None? <==> forall m :: !Hit(subs, f, version, m))
      && (r.Some? ==> Hit(subs, f, version, r.value)
                      && forall m :: Hit(subs, f, version, m) ==> m.priority <= r.value.priority)
  {
    var end := ScanFrom(subs, f, version, true, Scan(None, []));
    assert subs[0..] == subs;
    ScanCovers(subs, f, version, true, 0, Scan(None, []));
    SoftIsConjunctive(subs, f, version, end);
    forall m | Hit(subs, f, version, m) ensures end.hard.Some? && m.priority <= end.hard.value.priority {
      var k := HitTail(subs, f, version, m);
      TailFacts(subs, f, version, k);
      assert Covered(subs[k], f, version, true, end);
    }
  }

  // ----- the subtables that the mask depends on

  /** A subtable with a priority of `p` or more has the bit in its mask. */
  ghost predicate UsedAbove(subs: seq<Subtable>, b: nat, p: int) {
    exists k :: 0 <= k < |subs| && subs[k].maxPriority >= p && b < |subs[k].mask| && subs[k].mask[b]
  }

  /** `wc'` un-wildcards no bit but those of `wc` and those of subtables with a priority of `p` or more. */
  ghost predicate NeededAbove(subs: seq<Subtable>, wc: Option<Bits>, wc': Option<Bits>, p: int) {
    wc.Some? && wc'.Some? ==>
      && |wc.value| == |wc'.value|
      && forall b :: 0 <= b < |wc.value| && wc'.value[b] ==> wc.value[b] || UsedAbove(subs, b, p)
  }

  /** The main loop comes to no subtable whose highest priority is below that of the rule it finds. */
  lemma {:induction false} ScannedAbove(subs: seq<Subtable>, f: Bits, version: nat, allow: bool, i: nat, acc: Scan)
    requires SameSize(subs, f) && Ordered(subs) && i <= |subs|
    requires forall k :: 0 <= k < i ==> subs[k].maxPriority >= HardPriority(acc.hard)
    ensures
      var end, n := ScanFrom(subs[i..], f, version, allow, acc), Scanned(subs[i..], f, version, allow, acc);
      forall k :: 0 <= k < i + n ==> subs[k].maxPriority >= HardPriority(end.hard)
    decreases |subs| - i
  {
    hide SubTail;
    if i < |subs| && subs[i].maxPriority >= HardPriority(acc.hard) + 1 {
      TailFacts(subs, f, version, i);
      assert subs[i..][0] == subs[i] && subs[i..][1..] == subs[i + 1..];
      ScannedAbove(subs, f, version, allow, i + 1, Consider(acc, SubTail(subs[i], f, version), allow));
    }
  }

  /** Without conjunctive rules among those that match, no conjunction is looked up, and the mask of a lookup
      depends on no subtable whose rules all have a lower priority than the one found. */
  lemma MaskFromAbove(cfg: Config, subs: seq<Subtable>, f: Bits, version: nat, wc: Option<Bits>, wc': Option<Bits>)
    requires ValidConfig(cfg) && IsFlow(cfg, f) && SameSize(subs, f) && Ordered(subs)
    requires forall m :: Hit(subs, f, version, m) ==> m.conjs == []
    ensures
      var end := ScanFrom(subs, f, version, true, Scan(None, []));
      var r := Lookup(cfg, subs, f, version);
      && Tried(cfg, subs, f, version, end) == []
      && (Needed(subs[..Scanned(subs, f, version, true, Scan(None, []))], wc, wc') && r.Some? ==>
            NeededAbove(subs, wc, wc', r.value.priority))
  {
    hide Hit;
    var end, n := ScanFrom(subs, f, version, true, Scan(None, [])), Scanned(subs, f, version, true, Scan(None, []));
    assert subs[0..] == subs;
    ScanCovers(subs, f, version, true, 0, Scan(None, []));
    SoftIsConjunctive(subs, f, version, end);
    ScannedAbove(subs, f, version, true, 0, Scan(None, []));
    if end.hard.Some? {
      forall b: nat | Used(subs[..n], b) ensures UsedAbove(subs, b, end.hard.value.priority) {
        var k :| 0 <= k < n && b < |subs[..n][k].mask| && subs[..n][k].mask[b];
        assert subs[..n][k] == subs[k];
      }
    }
  }

  // ----- the soft match loop

  /** The rule `h` is no better than the hard match, or it waits in a soft match. */
  ghost predicate Accounted(acc: Scan, h: Match) {
    h.priority <= HardPriority(acc.hard) || exists s :: s in acc.soft && h in s
  }

  ghost predicate SoftInv(subs: seq<Subtable>, f: Bits, version: nat, acc: Scan)
    requires SameSize(subs, f)
  {
    && HardHit(subs, f, version, acc.hard)
    && (forall s :: s in acc.soft ==> s == [] || SoftHit(subs, f, version, s))
    && forall h :: Hit(subs, f, version, h) && h.conjs == [] ==> Accounted(acc, h)
  }

  lemma SoftInvStart(subs: seq<Subtable>, f: Bits, version: nat)
    requires SameSize(subs, f) && Ordered(subs)
    ensures SoftInv(subs, f, version, ScanFrom(subs, f, version, true, Scan(None, [])))
  {
    hide SubTail, ScanFrom;
    var end := ScanFrom(subs, f, version, true, Scan(None, []));
    assert subs[0..] == subs;
    ScanCovers(subs, f, version, true, 0, Scan(None, []));
    forall h | Hit(subs, f, version, h) && h.conjs == [] ensures Accounted(end, h) {
      var k := HitTail(subs, f, version, h);
      TailFacts(subs, f, version, k);
      assert Covered(subs[k], f, version, true, end);
    }
  }

  /** Deleting dead soft matches keeps exactly the others. */
  lemma {:induction false} DropDeadKeeps(soft: seq<seq<Match>>, i: nat, pri: int, s: seq<Match>)
    requires i <= |soft| && forall k :: 0 <= k < i ==> soft[k] != [] && soft[k][0].priority > pri
    ensures s in DropDead(soft, i, pri) ==> s in soft && s != [] && s[0].priority > pri
    ensures s in soft && s != [] && s[0].priority > pri ==> s in DropDead(soft, i, pri)
    decreases |soft| - i
  {
    if i < |soft| {
      if soft[i] == [] || soft[i][0].priority <= pri {
        var n := |soft| - 1;
        var soft' := soft[i := soft[n]][..n];
        DropDeadKeeps(soft', i, pri, s);
        if s in soft && s != soft[i] {
          var k :| 0 <= k < |soft| && soft[k] == s;
          assert if k < n then soft'[k] == s else i < n && soft'[i] == s;
        }
      } else {
        DropDeadKeeps(soft, i + 1, pri, s);
      }
    }
  }

  lemma DropDeadInv(subs: seq<Subtable>, f: Bits, version: nat, acc: Scan)
    requires SameSize(subs, f) && SoftInv(subs, f, version, acc)
    ensures SoftInv(subs, f, version, acc.(soft := DropDead(acc.soft, 0, HardPriority(acc.hard))))
  {
    hide DropDead;
    var pri := HardPriority(acc.hard);
    var acc' := acc.(soft := DropDead(acc.soft, 0, pri));
    forall s ensures s in acc'.soft ==> s in acc.soft {
      DropDeadKeeps(acc.soft, 0, pri, s);
    }
    forall h | Hit(subs, f, version, h) && h.conjs == [] ensures Accounted(acc', h) {
      assert Accounted(acc, h);
      if h.priority > pri {
        var s: seq<Match> :| s in acc.soft && h in s;
        assert SoftHit(subs, f, version, s);
        BestFirst(s, h);
        DropDeadKeeps(acc.soft, 0, pri, s);
      }
    }
  }

  lemma KeptBehind(s: seq<Match>, version: nat, h: Match)
    requires h in s && h.VisibleIn(version) && s[0] != h
    ensures h in VisibleFrom(s[1..], version)
  {
    assert h in s[1..];
    VisibleKept(s[1..], version, h);
  }

  /** The next visible rule of a list, and what follows it. */
  lemma NextVisible(subs: seq<Subtable>, f: Bits, version: nat, s: seq<Match>)
    requires SameSize(subs, f) && SoftHit(subs, f, version, s)
    ensures
      var next := VisibleFrom(s[1..], version);
      && Sorted(next)
      && (next != [] ==> next[0].VisibleIn(version) && InList(subs, next))
      && (forall m :: m in next && m.VisibleIn(version) ==> Hit(subs, f, version, m))
      && (forall h :: h in s && h.VisibleIn(version) && h.conjs == [] ==> h in next)
  {
    hide VisibleFrom, Hit, Sorted;
    var next := VisibleFrom(s[1..], version);
    assert next == s[|s| - |next|..];
    SortedEnd(s, |s| - |next|);
    EndIn(subs, s, next);
    forall h | h in s && h.VisibleIn(version) && h.conjs == [] ensures h in next {
      KeptBehind(s, version, h);
    }
  }

  lemma SortedEnd(s: seq<Match>, d: nat)
    requires Sorted(s) && d <= |s|
    ensures Sorted(s[d..])
  {
  }

  lemma EndIn(subs: seq<Subtable>, s: seq<Match>, next: seq<Match>)
    requires InList(subs, s) && |next| <= |s| && next == s[|s| - |next|..]
    ensures InList(subs, next)
  {
    var k, j :| 0 <= k < |subs| && 0 <= j < |subs[k].heads| && EndOf(s, subs[k].heads[j].list);
    assert EndOf(next, subs[k].heads[j].list);
  }

  lemma StepOneInv(subs: seq<Subtable>, f: Bits, version: nat, acc: Scan, i: nat)
    requires SameSize(subs, f) && SoftInv(subs, f, version, acc) && i < |acc.soft| && acc.soft[i] != []
    ensures SoftInv(subs, f, version, StepOne(acc, version, i))
  {
    hide Hit, VisibleFrom, Accounted, Sorted, InList;
    var acc' := StepOne(acc, version, i);
    var was := acc.soft[i];
    var next := VisibleFrom(was[1..], version);
    assert SoftHit(subs, f, version, was);
    NextVisible(subs, f, version, was);
    if next != [] { assert next[0] in next; }
    forall s | s in acc'.soft ensures s == [] || SoftHit(subs, f, version, s) {
      assert s in acc.soft || s == acc'.soft[i];
    }
    forall h | Hit(subs, f, version, h) && h.conjs == [] ensures Accounted(acc', h) {
      HitVisible(subs, f, version, h);
      StepOneAccounted(acc, version, i, h, next);
    }
  }

  lemma HitVisible(subs: seq<Subtable>, f: Bits, version: nat, h: Match)
    requires SameSize(subs, f) && Hit(subs, f, version, h)
    ensures h.VisibleIn(version)
  {
  }

  lemma StepOneAccounted(acc: Scan, version: nat, i: nat, h: Match, next: seq<Match>)
    requires i < |acc.soft| && acc.soft[i] != [] && next == VisibleFrom(acc.soft[i][1..], version) && Sorted(next)
    requires Accounted(acc, h) && (h in acc.soft[i] ==> h in next)
    ensures Accounted(StepOne(acc, version, i), h)
  {
    hide VisibleFrom;
    var acc' := StepOne(acc, version, i);
    if h in acc.soft[i] {
      BestFirst(next, h);
      if next[0].conjs != [] {
        assert acc'.soft[i] == next;
      }
    } else if h.priority > HardPriority(acc.hard) {
      var s: seq<Match> :| s in acc.soft && h in s;
      var k :| 0 <= k < |acc.soft| && acc.soft[k] == s;
      assert acc'.soft[k] == s;
    }
  }

  lemma BestFirst(s: seq<Match>, h: Match)
    requires Sorted(s) && h in s
    ensures h.priority <= s[0].priority
  {
  }

  lemma {:induction false} FallBackInv(subs: seq<Subtable>, f: Bits, version: nat, acc: Scan, pri: int, i: nat)
    requires SameSize(subs, f) && SoftInv(subs, f, version, acc)
    requires i <= |acc.soft| && forall k :: i <= k < |acc.soft| ==> acc.soft[k] != []
    ensures SoftInv(subs, f, version, FallBack(acc, version, pri, i))
    decreases |acc.soft| - i
  {
    hide SoftInv;
    if i < |acc.soft| {
      if acc.soft[i][0].priority != pri {
        FallBackInv(subs, f, version, acc, pri, i + 1);
      } else {
        StepOneInv(subs, f, version, acc, i);
        FallBackInv(subs, f, version, StepOne(acc, version, i), pri, i + 1);
      }
    }
  }

  // ----- above the ordinary rules

  ghost predicate AboveHard(subs: seq<Subtable>, f: Bits, version: nat, pri: int)
    requires SameSize(subs, f)
  {
    forall h :: Hit(subs, f, version, h) && h.conjs == [] ==> h.priority < pri
  }

  /** The best soft matches have a higher priority than every non-conjunctive rule that matches. */
  lemma TopAboveHard(subs: seq<Subtable>, f: Bits, version: nat, acc: Scan)
    requires SameSize(subs, f) && AllDistinct(subs, version) && SoftInv(subs, f, version, acc) && acc.soft != []
    requires forall k :: 0 <= k < |acc.soft| ==> acc.soft[k] != [] && acc.soft[k][0].priority > HardPriority(acc.hard)
    ensures AboveHard(subs, f, version, TopPriority(acc.soft))
  {
    hide Hit, TopPriority;
    TopPriorityIsTop(acc.soft);
    assert acc.soft[0][0].priority <= TopPriority(acc.soft);
    forall h | Hit(subs, f, version, h) && h.conjs == [] ensures h.priority < TopPriority(acc.soft) {
      assert Accounted(acc, h);
      if h.priority > HardPriority(acc.hard) {
        var s: seq<Match> :| s in acc.soft && h in s;
        assert SoftHit(subs, f, version, s);
        HitVisible(subs, f, version, h);
        BelowSoft(subs, version, s, h);
      }
    }
  }

  lemma BelowSoft(subs: seq<Subtable>, version: nat, s: seq<Match>, h: Match)
    requires AllDistinct(subs, version) && InList(subs, s)
    requires s != [] && s[0].VisibleIn(version) && h in s && h.VisibleIn(version) && h != s[0]
    ensures h.priority < s[0].priority
  {
    var k, j :| 0 <= k < |subs| && 0 <= j < |subs[k].heads| && EndOf(s, subs[k].heads[j].list);
    var list := subs[k].heads[j].list;
    assert Distinct(list, version);
    var d := |list| - |s|;
    var i :| 0 <= i < |s| && s[i] == h;
    assert list[d] == s[0] && list[d + i] == h;
  }

  // ----- the lookup with a conjunction id

  /** A non-conjunctive rule that matches and comes first in its list of equal rules. */
  ghost predicate Leads(subs: seq<Subtable>, f: Bits, version: nat, m: Match)
    requires SameSize(subs, f)
  {
    m.conjs == [] && exists k :: 0 <= k < |subs| && FirstOf(SubTail(subs[k], f, version), m)
  }

  predicate FirstOf(tail: seq<Match>, m: Match) {
    tail != [] && tail[0] == m
  }

  /** The lookup that a completed conjunction leads to finds the best of the rules that lead their
      lists.  It is the best non-conjunctive match, as the documentation has it, exactly when no such
      match stands behind a conjunctive rule in its list and above every match that leads one. */
  lemma PlainLookupExact(subs: seq<Subtable>, f: Bits, version: nat)
    requires SameSize(subs, f) && Ordered(subs)
    ensures BestHard(subs, f, version, PlainLookup(subs, f, version)) <==>
      forall h :: Hit(subs, f, version, h) && h.conjs == [] ==>
        exists m :: Leads(subs, f, version, m) && h.priority <= m.priority
  {
    hide SubTail;
    var end := ScanFrom(subs, f, version, false, Scan(None, []));
    assert subs[0..] == subs;
    ScanCovers(subs, f, version, false, 0, Scan(None, []));
    ScanLeads(subs, f, version, 0, Scan(None, []));
    forall m | Leads(subs, f, version, m) ensures end.hard.Some? && m.priority <= end.hard.value.priority {
      var k :| 0 <= k < |subs| && FirstOf(SubTail(subs[k], f, version), m);
      assert Covered(subs[k], f, version, false, end);
    }
  }

  lemma {:induction false} ScanLeads(subs: seq<Subtable>, f: Bits, version: nat, i: nat, acc: Scan)
    requires SameSize(subs, f) && i <= |subs| && (acc.hard.Some? ==> Leads(subs, f, version, acc.hard.value))
    ensures
      var end := ScanFrom(subs[i..], f, version, false, acc);
      end.hard.Some? ==> Leads(subs, f, version, end.hard.value)
    decreases |subs| - i
  {
    hide SubTail;
    if i < |subs| {
      var acc' := Consider(acc, SubTail(subs[i], f, version), false);
      assert subs[i..][0] == subs[i] && subs[i..][1..] == subs[i + 1..];
      if acc'.hard.Some? && acc'.hard != acc.hard {
        assert FirstOf(SubTail(subs[i], f, version), acc'.hard.value);
      }
      ScanLeads(subs, f, version, i + 1, acc');
    }
  }
}
