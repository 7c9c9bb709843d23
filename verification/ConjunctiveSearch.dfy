/** What conjunctive matches do to a lookup, from both sides: every conjunction that it looks up counts as
    met, above every ordinary match; and the highest one that counts as met and has a rule decides. */
module ConjunctiveSearch {
  import opened Bits
  import opened ClassifierLookup
  import opened ConjunctionIds
  import opened Flows
  import opened LookupMeaning
  import opened Numbers
  import opened SoftMatches
  import opened Subtables
  import opened Wrappers

  // ----- the clauses that are recorded

  function Pairs(conjs: seq<Conjunction>): set<(nat, nat)> {
    set c | c in conjs :: (c.id, c.clause)
  }

  /** Every use of a conjunction id names the same number of clauses. */
  predicate Consistent(conjs: seq<Conjunction>, nOf: nat -> nat) {
    forall c :: c in conjs ==> c.nClauses == nOf(c.id)
  }

  /** Below the number of clauses, only clauses that have been seen are recorded. */
  ghost predicate Recorded(matches: Clauses, seen: set<(nat, nat)>, nOf: nat -> nat) {
    forall id, b :: id in matches && b in matches[id] ==> nOf(id) % CLAUSE_BITS <= b || (id, b) in seen
  }

  /** Some clause of `id` has been seen, and every one below the number of clauses modulo 64. */
  ghost predicate Complete(id: nat, seen: set<(nat, nat)>, nOf: nat -> nat) {
    && (exists b :: (id, b) in seen)
    && (forall b: nat :: b < nOf(id) % CLAUSE_BITS ==> (id, b) in seen)
  }

  /** A rule names each conjunction at most once, and clauses that exist. */
  predicate OncePerId(conjs: seq<Conjunction>) {
    && (forall i, j :: 0 <= i < j < |conjs| ==> conjs[i].id != conjs[j].id)
    && (forall c :: c in conjs ==> c.clause < c.nClauses)
  }

  /** A conjunction that is found complete has enough clauses among those seen. */
  lemma {:induction false} FindConjunctiveSound(conjs: seq<Conjunction>, maxClauses: nat, matches: Clauses,
                                                seen: set<(nat, nat)>, nOf: nat -> nat)
    requires Consistent(conjs, nOf) && Recorded(matches, seen, nOf)
    ensures
      var (id, matches') := FindConjunctive(conjs, maxClauses, matches);
      && Recorded(matches', seen + Pairs(conjs), nOf)
      && (id.Some? ==> nOf(id.value) <= maxClauses && Complete(id.value, seen + Pairs(conjs), nOf))
    decreases |conjs|
  {
    hide Recorded, Complete, Record;
    if conjs == [] {
      assert seen + Pairs(conjs) == seen;
    } else {
      var c, rest := conjs[0], conjs[1..];
      assert Pairs(conjs) == {(c.id, c.clause)} + Pairs(rest) by {
        assert conjs == [c] + rest;
      }
      if c.nClauses > maxClauses {
        FindConjunctiveSound(rest, maxClauses, matches, seen, nOf);
        MoreSeen(FindConjunctive(rest, maxClauses, matches).1, seen + Pairs(rest), seen + Pairs(conjs), nOf);
      } else {
        var seen' := seen + {(c.id, c.clause)};
        assert seen' + Pairs(rest) == seen + Pairs(conjs);
        RecordedStep(c, matches, seen, nOf);
        FindConjunctiveSound(rest, maxClauses, matches[c.id := Record(c, matches)], seen', nOf);
        MoreSeen(matches[c.id := Record(c, matches)], seen', seen + Pairs(conjs), nOf);
      }
    }
  }

  lemma MoreSeen(matches: Clauses, seen: set<(nat, nat)>, seen': set<(nat, nat)>, nOf: nat -> nat)
    requires seen <= seen'
    ensures Recorded(matches, seen, nOf) ==> Recorded(matches, seen', nOf)
    ensures forall id :: Complete(id, seen, nOf) ==> Complete(id, seen', nOf)
  {
    forall id: nat | Complete(id, seen, nOf) ensures Complete(id, seen', nOf) {
      var b :| (id, b) in seen;
      assert (id, b) in seen';
    }
  }

  lemma RecordedStep(c: Conjunction, matches: Clauses, seen: set<(nat, nat)>, nOf: nat -> nat)
    requires c.nClauses == nOf(c.id) && Recorded(matches, seen, nOf)
    ensures Recorded(matches[c.id := Record(c, matches)], seen + {(c.id, c.clause)}, nOf)
    ensures Record(c, matches) == HighBits(0) ==> Complete(c.id, seen + {(c.id, c.clause)}, nOf)
  {
    var seen' := seen + {(c.id, c.clause)};
    assert Recorded(matches[c.id := Record(c, matches)], seen', nOf);
    if Record(c, matches) == HighBits(0) {
      assert (c.id, c.clause) in seen';
      forall b: nat | b < nOf(c.id) % CLAUSE_BITS ensures (c.id, b) in seen' {
        assert b in Record(c, matches);
      }
    }
  }

  /** Every clause of `id` that has been seen is recorded, and `id` is not complete yet; `n` is the number
      of its clauses modulo 64. */
  ghost predicate Pending(matches: Clauses, seen: set<(nat, nat)>, id: nat, n: nat) {
    if id !in matches then NoneSeen(seen, id)
    else
      && (forall b :: (id, b) in seen ==> b in matches[id])
      && HighBits(n) <= matches[id] <= HighBits(0) && matches[id] != HighBits(0)
  }

  ghost predicate NoneSeen(seen: set<(nat, nat)>, id: nat) {
    forall b :: (id, b) !in seen
  }

  lemma PendingStep(c: Conjunction, matches: Clauses, seen: set<(nat, nat)>, nOf: nat -> nat)
    requires c.nClauses == nOf(c.id) <= CLAUSE_BITS && c.clause < c.nClauses
    requires Pending(matches, seen, c.id, nOf(c.id) % CLAUSE_BITS) && Record(c, matches) != HighBits(0)
    ensures Pending(matches[c.id := Record(c, matches)], seen + {(c.id, c.clause)}, c.id, nOf(c.id) % CLAUSE_BITS)
  {
    var bits := Record(c, matches);
    assert c.clause in HighBits(0) && bits <= HighBits(0);
  }

  lemma PendingOther(matches: Clauses, matches': Clauses, seen: set<(nat, nat)>, id: nat, n: nat, c: Conjunction)
    requires c.id != id && (id in matches <==> id in matches') && (id in matches ==> matches'[id] == matches[id])
    ensures Pending(matches, seen, id, n) ==> Pending(matches', seen + {(c.id, c.clause)}, id, n)
  {
  }

  lemma {:induction false} FindConjunctiveRecords(conjs: seq<Conjunction>, maxClauses: nat, matches: Clauses,
                                                  seen: set<(nat, nat)>, nOf: nat -> nat, id: nat)
    requires Consistent(conjs, nOf) && (forall c :: c in conjs ==> c.clause < c.nClauses)
    requires nOf(id) <= CLAUSE_BITS && nOf(id) <= maxClauses && Pending(matches, seen, id, nOf(id) % CLAUSE_BITS)
    ensures
      var (found, matches') := FindConjunctive(conjs, maxClauses, matches);
      found.None? ==> Pending(matches', seen + Pairs(conjs), id, nOf(id) % CLAUSE_BITS)
    decreases |conjs|
  {
    hide Pending, Record, HighBits;
    var n := nOf(id) % CLAUSE_BITS;
    if conjs == [] {
      assert seen + Pairs(conjs) == seen;
    } else {
      var c, rest := conjs[0], conjs[1..];
      assert Pairs(conjs) == {(c.id, c.clause)} + Pairs(rest) by {
        assert conjs == [c] + rest;
      }
      if c.nClauses > maxClauses {
        FindConjunctiveRecords(rest, maxClauses, matches, seen, nOf, id);
        assert seen + Pairs(conjs) == seen + Pairs(rest) + {(c.id, c.clause)};
        var matches' := FindConjunctive(rest, maxClauses, matches).1;
        PendingOther(matches', matches', seen + Pairs(rest), id, n, c);
      } else {
        var matches' := matches[c.id := Record(c, matches)];
        var seen' := seen + {(c.id, c.clause)};
        assert seen' + Pairs(rest) == seen + Pairs(conjs);
        if matches'[c.id] != HighBits(0) {
          if c.id == id { PendingStep(c, matches, seen, nOf); } else { PendingOther(matches, matches', seen, id, n, c); }
          FindConjunctiveRecords(rest, maxClauses, matches', seen', nOf, id);
        }
      }
    }
  }

  lemma MissingBit(bits: set<nat>) returns (b: nat)
    requires bits <= HighBits(0) && bits != HighBits(0)
    ensures b in HighBits(0) && b !in bits
  {
    hide HighBits;
    b :| b in HighBits(0) && b !in bits;
  }

  lemma PendingIncomplete(matches: Clauses, seen: set<(nat, nat)>, nOf: nat -> nat, id: nat)
    requires nOf(id) <= CLAUSE_BITS && Pending(matches, seen, id, nOf(id) % CLAUSE_BITS)
    ensures NoneSeen(seen, id) || exists b: nat :: b < nOf(id) % CLAUSE_BITS && (id, b) !in seen
  {
    if id in matches {
      var b := MissingBit(matches[id]);
      assert b !in HighBits(nOf(id) % CLAUSE_BITS);
      assert (id, b) !in seen;
    }
  }

  // ----- one round

  /** The clauses of the soft matches of priority `pri` before the `i`-th. */
  ghost function SeenUpTo(soft: seq<seq<Match>>, pri: int, i: nat): set<(nat, nat)>
    requires i <= |soft| && forall k :: 0 <= k < |soft| ==> soft[k] != []
  {
    if i == 0 then {}
    else SeenUpTo(soft, pri, i - 1) + if soft[i - 1][0].priority == pri then Pairs(soft[i - 1][0].conjs) else {}
  }

  lemma {:induction false} SeenSource(soft: seq<seq<Match>>, pri: int, i: nat, id: nat, clause: nat) returns (k: nat, c: Conjunction)
    requires i <= |soft| && (forall k :: 0 <= k < |soft| ==> soft[k] != []) && (id, clause) in SeenUpTo(soft, pri, i)
    ensures k < |soft| && soft[k][0].priority == pri && c in soft[k][0].conjs && c.id == id && c.clause == clause
    decreases i
  {
    if soft[i - 1][0].priority == pri && (id, clause) in Pairs(soft[i - 1][0].conjs) {
      k := i - 1;
      c :| c in soft[k][0].conjs && (c.id, c.clause) == (id, clause);
    } else {
      k, c := SeenSource(soft, pri, i - 1, id, clause);
    }
  }

  lemma {:induction false} SeenGrows(soft: seq<seq<Match>>, pri: int, i: nat, j: nat)
    requires i <= j <= |soft| && forall k :: 0 <= k < |soft| ==> soft[k] != []
    ensures SeenUpTo(soft, pri, i) <= SeenUpTo(soft, pri, j)
    decreases j - i
  {
    if i < j {
      SeenGrows(soft, pri, i, j - 1);
    }
  }

  /** The clauses of the soft matches of priority `pri`, of which there are `n`, make up the conjunction. */
  ghost predicate Passes(soft: seq<seq<Match>>, pri: int, n: nat, nOf: nat -> nat, id: nat)
    requires forall k :: 0 <= k < |soft| ==> soft[k] != []
  {
    nOf(id) <= n && Complete(id, SeenUpTo(soft, pri, |soft|), nOf)
  }

  /** Every conjunction that a round looks up is made up of the clauses of its soft matches. */
  lemma {:induction false} RoundSound(soft: seq<seq<Match>>, pri: int, n: nat, i: nat, matches: Clauses, nOf: nat -> nat)
    requires i <= |soft| && forall k :: 0 <= k < |soft| ==> soft[k] != [] && Consistent(soft[k][0].conjs, nOf)
    requires Recorded(matches, SeenUpTo(soft, pri, i), nOf)
    ensures forall id :: id in Candidates(soft, pri, n, i, matches) ==> Passes(soft, pri, n, nOf, id)
    decreases |soft| - i
  {
    hide FindConjunctive, Recorded, Complete;
    if i < |soft| {
      if soft[i][0].priority != pri {
        assert SeenUpTo(soft, pri, i + 1) == SeenUpTo(soft, pri, i);
        RoundSound(soft, pri, n, i + 1, matches, nOf);
      } else {
        var (id, matches') := FindConjunctive(soft[i][0].conjs, n, matches);
        FindConjunctiveSound(soft[i][0].conjs, n, matches, SeenUpTo(soft, pri, i), nOf);
        RoundSound(soft, pri, n, i + 1, matches', nOf);
        SeenGrows(soft, pri, i + 1, |soft|);
        MoreSeen(matches', SeenUpTo(soft, pri, i + 1), SeenUpTo(soft, pri, |soft|), nOf);
      }
    }
  }

  /** A round comes to the conjunction that its soft matches make up, if that is just one. */
  lemma {:induction false} RoundComplete(soft: seq<seq<Match>>, pri: int, n: nat, i: nat, matches: Clauses,
                                         nOf: nat -> nat, id: nat)
    requires i <= |soft|
    requires forall k :: 0 <= k < |soft| ==>
      soft[k] != [] && Consistent(soft[k][0].conjs, nOf) && OncePerId(soft[k][0].conjs)
    requires nOf(id) <= CLAUSE_BITS && Recorded(matches, SeenUpTo(soft, pri, i), nOf)
    requires Pending(matches, SeenUpTo(soft, pri, i), id, nOf(id) % CLAUSE_BITS)
    requires Passes(soft, pri, n, nOf, id) && forall other :: Passes(soft, pri, n, nOf, other) ==> other == id
    ensures id in Candidates(soft, pri, n, i, matches)
    decreases |soft| - i
  {
    hide FindConjunctive, Recorded, Pending, Complete;
    if i == |soft| {
      PendingIncomplete(matches, SeenUpTo(soft, pri, i), nOf, id);
      IncompleteSeen(id, SeenUpTo(soft, pri, i), nOf);
    } else if soft[i][0].priority != pri {
      assert SeenUpTo(soft, pri, i + 1) == SeenUpTo(soft, pri, i);
      RoundComplete(soft, pri, n, i + 1, matches, nOf, id);
    } else {
      var seen, conjs := SeenUpTo(soft, pri, i), soft[i][0].conjs;
      var (found, matches') := FindConjunctive(conjs, n, matches);
      FindConjunctiveSound(conjs, n, matches, seen, nOf);
      FindConjunctiveRecords(conjs, n, matches, seen, nOf, id);
      if found.None? {
        RoundComplete(soft, pri, n, i + 1, matches', nOf, id);
      } else {
        SeenGrows(soft, pri, i + 1, |soft|);
        MoreSeen(matches', SeenUpTo(soft, pri, i + 1), SeenUpTo(soft, pri, |soft|), nOf);
        assert Passes(soft, pri, n, nOf, found.value);
      }
    }
  }

  lemma IncompleteSeen(id: nat, seen: set<(nat, nat)>, nOf: nat -> nat)
    requires NoneSeen(seen, id) || exists b: nat :: b < nOf(id) % CLAUSE_BITS && (id, b) !in seen
    ensures !Complete(id, seen, nOf)
  {
  }

  // ----- conjunctions that are met

  ghost predicate ClauseMet(subs: seq<Subtable>, f: Bits, version: nat, id: nat, clause: nat, pri: int)
    requires SameSize(subs, f)
  {
    exists m, c :: Hit(subs, f, version, m) && m.priority == pri && c in m.conjs && c.id == id && c.clause == clause
  }

  /** Matching rules of priority `pri` between them have every clause of the conjunction `id`. */
  ghost predicate ConjunctionMet(subs: seq<Subtable>, f: Bits, version: nat, id: nat, pri: int, nOf: nat -> nat)
    requires SameSize(subs, f)
  {
    forall b: nat :: b < nOf(id) ==> ClauseMet(subs, f, version, id, b, pri)
  }

  /** What the search takes for that: some clause matches, and every one below the number of clauses modulo
      64; and as many subtables as there are clauses have a matching conjunctive rule of that priority. */
  ghost predicate CountsAsMet(subs: seq<Subtable>, f: Bits, version: nat, id: nat, pri: int, nOf: nat -> nat)
    requires SameSize(subs, f)
  {
    && nOf(id) <= |Crowd(subs, f, version, pri)|
    && (exists b :: ClauseMet(subs, f, version, id, b, pri))
    && (forall b: nat :: b < nOf(id) % CLAUSE_BITS ==> ClauseMet(subs, f, version, id, b, pri))
  }

  ghost predicate ConsistentHits(subs: seq<Subtable>, f: Bits, version: nat, nOf: nat -> nat)
    requires SameSize(subs, f)
  {
    forall m :: Hit(subs, f, version, m) ==> Consistent(m.conjs, nOf)
  }

  /** What OpenFlow demands of conjunctions: their uses agree, a rule has at most one clause of each, and
      there are at most 64 clauses. */
  ghost predicate ProperHits(subs: seq<Subtable>, f: Bits, version: nat, nOf: nat -> nat)
    requires SameSize(subs, f)
  {
    && ConsistentHits(subs, f, version, nOf)
    && (forall m :: Hit(subs, f, version, m) ==> OncePerId(m.conjs))
    && (forall id :: 0 < nOf(id) <= CLAUSE_BITS)
  }

  lemma SoftHeads(subs: seq<Subtable>, f: Bits, version: nat, soft: seq<seq<Match>>, nOf: nat -> nat)
    requires SameSize(subs, f) && ConsistentHits(subs, f, version, nOf)
    requires forall s :: s in soft ==> SoftHit(subs, f, version, s)
    ensures forall k :: 0 <= k < |soft| ==>
      soft[k] != [] && Hit(subs, f, version, soft[k][0]) && Consistent(soft[k][0].conjs, nOf)
  {
    hide Hit;
    forall k | 0 <= k < |soft|
      ensures soft[k] != [] && Hit(subs, f, version, soft[k][0]) && Consistent(soft[k][0].conjs, nOf)
    {
      assert SoftHit(subs, f, version, soft[k]);
      assert soft[k][0] in soft[k];
    }
  }

  lemma CompleteIsMet(subs: seq<Subtable>, f: Bits, version: nat, soft: seq<seq<Match>>, pri: int, nOf: nat -> nat, id: nat)
    requires SameSize(subs, f)
    requires forall k :: 0 <= k < |soft| ==> soft[k] != [] && Hit(subs, f, version, soft[k][0])
    requires Complete(id, SeenUpTo(soft, pri, |soft|), nOf)
    ensures exists b :: ClauseMet(subs, f, version, id, b, pri)
    ensures forall b: nat :: b < nOf(id) % CLAUSE_BITS ==> ClauseMet(subs, f, version, id, b, pri)
  {
    hide Hit, SeenUpTo;
    forall b | (id, b) in SeenUpTo(soft, pri, |soft|) ensures ClauseMet(subs, f, version, id, b, pri) {
      var k, c := SeenSource(soft, pri, |soft|, id, b);
      assert Hit(subs, f, version, soft[k][0]);
    }
  }

  /** When the round of its priority comes, a conjunction whose clauses match is complete. */
  lemma MetIsComplete(subs: seq<Subtable>, f: Bits, version: nat, soft: seq<seq<Match>>, tags: seq<nat>,
                      nOf: nat -> nat, id: nat, pri: int)
    requires SameSize(subs, f) && AllDistinct(subs, version) && |tags| == |soft|
    requires Waiting(subs, f, version, soft, tags, pri) && CountsAsMet(subs, f, version, id, pri, nOf)
    requires forall k :: 0 <= k < |soft| ==> soft[k] != [] && soft[k][0].priority <= pri
    requires forall s :: s in soft ==> SoftHit(subs, f, version, s)
    ensures Complete(id, SeenUpTo(soft, pri, |soft|), nOf)
  {
    hide Waiting, AllDistinct, SeenUpTo, Crowd, SoftHit, ClauseMet;
    var seen := SeenUpTo(soft, pri, |soft|);
    forall b: nat | ClauseMet(subs, f, version, id, b, pri) ensures (id, b) in seen {
      ClauseSeen(subs, f, version, soft, tags, id, b, pri);
    }
  }

  lemma ClauseSeen(subs: seq<Subtable>, f: Bits, version: nat, soft: seq<seq<Match>>, tags: seq<nat>, id: nat, b: nat, pri: int)
    requires SameSize(subs, f) && AllDistinct(subs, version) && |tags| == |soft|
    requires Waiting(subs, f, version, soft, tags, pri) && ClauseMet(subs, f, version, id, b, pri)
    requires forall k :: 0 <= k < |soft| ==> soft[k] != [] && soft[k][0].priority <= pri
    requires forall s :: s in soft ==> SoftHit(subs, f, version, s)
    ensures (id, b) in SeenUpTo(soft, pri, |soft|)
  {
    hide Hit, HitIn, AllDistinct, SeenUpTo;
    var m, c :| Hit(subs, f, version, m) && m.priority == pri && c in m.conjs && c.id == id && c.clause == b;
    HitVisible(subs, f, version, m);
    HitInHit(subs, f, version, m);
    var k :| 0 <= k < |subs| && HitIn(subs[k], f, version, m);
    assert WaitsAt(soft, tags, k, m);
    var i :| 0 <= i < |soft| && tags[i] == k && m in soft[i];
    assert SoftHit(subs, f, version, soft[i]);
    AtTop(subs, f, version, soft, soft[i], m);
    SeenAt(soft, pri, i, c);
  }

  lemma AtTop(subs: seq<Subtable>, f: Bits, version: nat, soft: seq<seq<Match>>, s: seq<Match>, m: Match)
    requires SameSize(subs, f) && AllDistinct(subs, version) && SoftHit(subs, f, version, s)
    requires s in soft && (forall k :: 0 <= k < |soft| ==> soft[k] != [] && soft[k][0].priority <= m.priority)
    requires m in s && m.VisibleIn(version)
    ensures m == s[0]
  {
    hide Hit, AllDistinct;
    if m != s[0] {
      BelowSoft(subs, version, s, m);
    }
  }

  lemma SeenAt(soft: seq<seq<Match>>, pri: int, k: nat, c: Conjunction)
    requires k < |soft| && (forall k :: 0 <= k < |soft| ==> soft[k] != [])
    requires soft[k][0].priority == pri && c in soft[k][0].conjs
    ensures (c.id, c.clause) in SeenUpTo(soft, pri, |soft|)
  {
    SeenGrows(soft, pri, k + 1, |soft|);
    assert (c.id, c.clause) in Pairs(soft[k][0].conjs);
  }

  // ----- what the search looks up

  /** The state of the search: what it has found, and where its soft matches come from. */
  ghost predicate Searching(subs: seq<Subtable>, f: Bits, version: nat, acc: Scan, tags: seq<nat>)
    requires SameSize(subs, f)
  {
    SoftInv(subs, f, version, acc) && Placed(subs, f, version, acc.soft, tags)
  }

  /** After the dead soft matches are deleted. */
  lemma Turn(subs: seq<Subtable>, f: Bits, version: nat, acc: Scan, tags: seq<nat>) returns (tags': seq<nat>)
    requires SameSize(subs, f) && Searching(subs, f, version, acc, tags)
    ensures
      var soft := DropDead(acc.soft, 0, HardPriority(acc.hard));
      && Searching(subs, f, version, Scan(acc.hard, soft), tags')
      && (forall s :: s in soft ==> SoftHit(subs, f, version, s))
      && (forall pri :: pri > HardPriority(acc.hard) && Waiting(subs, f, version, acc.soft, tags, pri) ==>
            Waiting(subs, f, version, soft, tags', pri))
  {
    hide Waiting, SoftHit, Placed;
    DropDeadInv(subs, f, version, acc);
    tags' := DropDeadPlaced(subs, f, version, acc, tags);
  }

  /** After a round that led to no rule. */
  lemma NextTurn(subs: seq<Subtable>, f: Bits, version: nat, acc: Scan, tags: seq<nat>)
    requires SameSize(subs, f) && Ordered(subs) && Searching(subs, f, version, acc, tags) && acc.soft != []
    requires forall k :: 0 <= k < |acc.soft| ==> acc.soft[k] != []
    ensures
      var top := TopPriority(acc.soft);
      var acc' := FallBack(acc, version, top, 0);
      && Searching(subs, f, version, acc', tags) && Weight(acc'.soft) < Weight(acc.soft)
      && (forall pri :: pri < top && AboveHard(subs, f, version, pri) && Waiting(subs, f, version, acc.soft, tags, pri) ==>
            Waiting(subs, f, version, acc'.soft, tags, pri))
  {
    hide SoftInv, Placed, Waiting, Ordered, FallBack, TopPriority, Weight, AboveHard;
    var top := TopPriority(acc.soft);
    PlacedSize(subs, f, version, acc.soft, tags);
    TopPriorityIsTop(acc.soft);
    FallBackWeight(acc, version, top, 0);
    FallBackInv(subs, f, version, acc, top, 0);
    FallBackPlaced(subs, f, version, acc, tags, top, 0);
    forall pri | pri < top && AboveHard(subs, f, version, pri) && Waiting(subs, f, version, acc.soft, tags, pri)
      ensures Waiting(subs, f, version, FallBack(acc, version, top, 0).soft, tags, pri)
    {
      FallBackWaiting(subs, f, version, acc, tags, top, 0, pri);
    }
  }

  lemma PlacedSize(subs: seq<Subtable>, f: Bits, version: nat, soft: seq<seq<Match>>, tags: seq<nat>)
    requires SameSize(subs, f) && Placed(subs, f, version, soft, tags)
    ensures |tags| == |soft|
  {
  }

  /** Every conjunction that a round looks up counts as met, at a priority above every ordinary match. */
  lemma RoundTries(subs: seq<Subtable>, f: Bits, version: nat, acc: Scan, tags: seq<nat>, nOf: nat -> nat)
    requires SameSize(subs, f) && Ordered(subs) && AllDistinct(subs, version) && ConsistentHits(subs, f, version, nOf)
    requires Searching(subs, f, version, acc, tags) && acc.soft != []
    requires forall s :: s in acc.soft ==> SoftHit(subs, f, version, s)
    requires forall k :: 0 <= k < |acc.soft| ==> acc.soft[k] != [] && acc.soft[k][0].priority > HardPriority(acc.hard)
    ensures
      var top := TopPriority(acc.soft);
      && AboveHard(subs, f, version, top)
      && forall id :: id in Candidates(acc.soft, top, CountAt(acc.soft, top), 0, map[]) ==>
           CountsAsMet(subs, f, version, id, top, nOf)
  {
    hide SoftInv, Hit, SoftHit, Ordered, AllDistinct, Waiting, Candidates, CountAt, TopPriority, AboveHard, Crowd, Complete,
      SeenUpTo, ClauseMet, Consistent;
    var soft, top := acc.soft, TopPriority(acc.soft);
    TopAboveHard(subs, f, version, acc);
    SoftHeads(subs, f, version, soft, nOf);
    NothingSeen(soft, top, nOf);
    RoundSound(soft, top, CountAt(soft, top), 0, map[], nOf);
    CountIsCrowd(subs, f, version, soft, tags, top);
    forall id: nat | id in Candidates(soft, top, CountAt(soft, top), 0, map[])
      ensures CountsAsMet(subs, f, version, id, top, nOf)
    {
      assert Passes(soft, top, CountAt(soft, top), nOf, id);
      CompleteIsMet(subs, f, version, soft, top, nOf, id);
    }
  }

  lemma NothingSeen(soft: seq<seq<Match>>, pri: int, nOf: nat -> nat)
    requires forall k :: 0 <= k < |soft| ==> soft[k] != []
    ensures SeenUpTo(soft, pri, 0) == {} && Recorded(map[], SeenUpTo(soft, pri, 0), nOf)
    ensures forall id, n :: Pending(map[], SeenUpTo(soft, pri, 0), id, n)
  {
  }

  /** The rule for the conjunction that was looked up. */
  function RuleFor(cfg: Config, subs: seq<Subtable>, f: Bits, version: nat, id: nat): Option<Match>
    requires ValidConfig(cfg) && IsFlow(cfg, f) && SameSize(subs, f)
  {
    PlainLookup(subs, SetConjId(cfg, f, id), version)
  }

  /** Every conjunction that the search looks up counts as met, at a priority above every ordinary match. */
  lemma {:induction false} TriedSound(cfg: Config, subs: seq<Subtable>, f: Bits, version: nat, acc: Scan, tags: seq<nat>,
                                      nOf: nat -> nat)
    requires ValidConfig(cfg) && IsFlow(cfg, f) && SameSize(subs, f) && Ordered(subs) && AllDistinct(subs, version)
    requires ConsistentHits(subs, f, version, nOf) && Searching(subs, f, version, acc, tags)
    ensures forall t :: t in Tried(cfg, subs, f, version, acc) ==>
      CountsAsMet(subs, f, version, t.id, t.pri, nOf) && AboveHard(subs, f, version, t.pri)
    decreases Weight(acc.soft)
  {
    hide Searching, Round, FallBack, TopPriority, CountAt, Candidates, LookedUp, SetConjId, Waiting, CountsAsMet, AboveHard,
      AllDistinct, Ordered, SoftHit, ConsistentHits, DropDead;
    var tags' := Turn(subs, f, version, acc, tags);
    var soft := DropDead(acc.soft, 0, HardPriority(acc.hard));
    if soft != [] {
      var acc', top := Scan(acc.hard, soft), TopPriority(soft);
      RoundTries(subs, f, version, acc', tags', nOf);
      DropDeadWeight(acc.soft, 0, HardPriority(acc.hard));
      NextTurn(subs, f, version, acc', tags');
      TriedSound(cfg, subs, f, version, FallBack(acc', version, top, 0), tags', nOf);
      var all := Candidates(soft, top, CountAt(soft, top), 0, map[]);
      var ids := LookedUp(cfg, subs, f, version, all);
      forall t | t in TriesOf(ids, top) ensures t.id in all && t.pri == top {
        var k :| 0 <= k < |ids| && TriesOf(ids, top)[k] == t;
        assert all[k] == ids[k];
      }
    }
  }

  /** The search gives the rule for the last conjunction that it looks up, all those before it having none;
      or none has a rule, and it gives the best ordinary match. */
  lemma {:induction false} SearchGives(cfg: Config, subs: seq<Subtable>, f: Bits, version: nat, acc: Scan)
    requires ValidConfig(cfg) && IsFlow(cfg, f) && SameSize(subs, f) && SoftInv(subs, f, version, acc)
    ensures
      var r, ts := SoftSearch(cfg, subs, f, version, acc), Tried(cfg, subs, f, version, acc);
      && (forall k :: 0 <= k < |ts| - 1 ==> RuleFor(cfg, subs, f, version, ts[k].id).None?)
      && if ts != [] && RuleFor(cfg, subs, f, version, ts[|ts| - 1].id).Some?
         then r == RuleFor(cfg, subs, f, version, ts[|ts| - 1].id)
         else BestHard(subs, f, version, r)
    decreases Weight(acc.soft)
  {
    hide Round, FallBack, TopPriority, CountAt, Candidates, LookedUp, SetConjId, PlainLookup, DropDead, SoftInv, BestHard;
    DropDeadInv(subs, f, version, acc);
    var soft := DropDead(acc.soft, 0, HardPriority(acc.hard));
    var acc', pri := Scan(acc.hard, soft), TopPriority(soft);
    if soft == [] {
      OnlyHard(subs, f, version, acc.hard);
    } else {
      var ids := LookedUp(cfg, subs, f, version, Candidates(soft, pri, CountAt(soft, pri), 0, map[]));
      var next := FallBack(acc', version, pri, 0);
      RoundLooksUp(cfg, subs, f, version, soft, pri, CountAt(soft, pri), 0, map[]);
      if LastRule(cfg, subs, f, version, ids).Some? {
        assert TriesOf(ids, pri) + [] == TriesOf(ids, pri);
      } else {
        DropDeadWeight(acc.soft, 0, HardPriority(acc.hard));
        TopPriorityIsTop(soft);
        FallBackWeight(acc', version, pri, 0);
        FallBackInv(subs, f, version, acc', pri, 0);
        SearchGives(cfg, subs, f, version, next);
        TriedTwice(cfg, subs, f, version, ids, pri, Tried(cfg, subs, f, version, next));
      }
    }
  }

  lemma OnlyHard(subs: seq<Subtable>, f: Bits, version: nat, hard: Option<Match>)
    requires SameSize(subs, f) && SoftInv(subs, f, version, Scan(hard, []))
    ensures BestHard(subs, f, version, hard)
  {
    hide SoftHit, Hit;
    forall h | Hit(subs, f, version, h) && h.conjs == [] ensures hard.Some? && h.priority <= hard.value.priority {
      assert Accounted(Scan(hard, []), h);
    }
  }

  /** If no conjunction of a round has a rule, those of the later rounds decide. */
  lemma TriedTwice(cfg: Config, subs: seq<Subtable>, f: Bits, version: nat, ids: seq<nat>, pri: int, ts: seq<Try>)
    requires ValidConfig(cfg) && IsFlow(cfg, f) && SameSize(subs, f)
    requires forall k :: 0 <= k < |ids| ==> RuleFor(cfg, subs, f, version, ids[k]).None?
    requires forall k :: 0 <= k < |ts| - 1 ==> RuleFor(cfg, subs, f, version, ts[k].id).None?
    ensures
      var all := TriesOf(ids, pri) + ts;
      && (forall k :: 0 <= k < |all| - 1 ==> RuleFor(cfg, subs, f, version, all[k].id).None?)
      && (ts != [] ==> all[|all| - 1] == ts[|ts| - 1])
      && (ts == [] && all != [] ==> RuleFor(cfg, subs, f, version, all[|all| - 1].id).None?)
  {
    hide RuleFor;
  }

  // ----- the conjunction that decides

  /** Of the conjunctions, `id` and no other counts as met at priority `pri`. */
  ghost predicate OnlyAt(subs: seq<Subtable>, f: Bits, version: nat, nOf: nat -> nat, id: nat, pri: int)
    requires SameSize(subs, f)
  {
    && CountsAsMet(subs, f, version, id, pri, nOf)
    && forall other :: CountsAsMet(subs, f, version, other, pri, nOf) ==> other == id
  }

  /** The round of its priority looks up the one conjunction that counts as met there. */
  lemma RoundFinds(cfg: Config, subs: seq<Subtable>, f: Bits, version: nat, soft: seq<seq<Match>>, tags: seq<nat>,
                   nOf: nat -> nat, id: nat, pri: int)
    requires ValidConfig(cfg) && IsFlow(cfg, f) && SameSize(subs, f) && Ordered(subs) && AllDistinct(subs, version)
    requires ProperHits(subs, f, version, nOf) && Placed(subs, f, version, soft, tags)
    requires Waiting(subs, f, version, soft, tags, pri) && OnlyAt(subs, f, version, nOf, id, pri)
    requires forall s :: s in soft ==> SoftHit(subs, f, version, s)
    requires forall k :: 0 <= k < |soft| ==> soft[k] != [] && soft[k][0].priority <= pri
    ensures id in LookedUp(cfg, subs, f, version, Candidates(soft, pri, CountAt(soft, pri), 0, map[]))
  {
    hide Hit, SoftHit, Ordered, AllDistinct, Waiting, Candidates, CountAt, LookedUp, Crowd, Complete, SeenUpTo, ClauseMet,
      Consistent, OncePerId, Pending, Recorded;
    var n := CountAt(soft, pri);
    SoftHeads(subs, f, version, soft, nOf);
    CountIsCrowd(subs, f, version, soft, tags, pri);
    NothingSeen(soft, pri, nOf);
    MetIsComplete(subs, f, version, soft, tags, nOf, id, pri);
    forall other: nat | Passes(soft, pri, n, nOf, other) ensures other == id {
      CompleteIsMet(subs, f, version, soft, pri, nOf, other);
      assert CountsAsMet(subs, f, version, other, pri, nOf);
    }
    RoundComplete(soft, pri, n, 0, map[], nOf, id);
    RoundSound(soft, pri, n, 0, map[], nOf);
    FirstLookedUp(cfg, subs, f, version, Candidates(soft, pri, n, 0, map[]), id);
  }

  lemma FirstLookedUp(cfg: Config, subs: seq<Subtable>, f: Bits, version: nat, ids: seq<nat>, id: nat)
    requires ValidConfig(cfg) && IsFlow(cfg, f) && SameSize(subs, f)
    requires id in ids && forall other :: other in ids ==> other == id
    ensures id in LookedUp(cfg, subs, f, version, ids)
  {
    assert ids[0] in ids;
    assert LookedUp(cfg, subs, f, version, ids)[0] == ids[0];
  }

  /** A conjunction that counts as met has a rule that waits, so the search does not end above it. */
  lemma StillAbove(subs: seq<Subtable>, f: Bits, version: nat, soft: seq<seq<Match>>, tags: seq<nat>,
                   nOf: nat -> nat, id: nat, pri: int)
    requires SameSize(subs, f) && |tags| == |soft| && Waiting(subs, f, version, soft, tags, pri)
    requires forall s :: s in soft ==> SoftHit(subs, f, version, s)
    requires forall k :: 0 <= k < |soft| ==> soft[k] != []
    requires CountsAsMet(subs, f, version, id, pri, nOf)
    ensures soft != [] && pri <= TopPriority(soft)
  {
    hide Hit, HitIn, TopPriority, Crowd;
    var b :| ClauseMet(subs, f, version, id, b, pri);
    var m, c :| Hit(subs, f, version, m) && m.priority == pri && c in m.conjs && c.id == id && c.clause == b;
    HitInHit(subs, f, version, m);
    var k :| 0 <= k < |subs| && HitIn(subs[k], f, version, m);
    assert WaitsAt(soft, tags, k, m);
    var i :| 0 <= i < |soft| && tags[i] == k && m in soft[i];
    assert SoftHit(subs, f, version, soft[i]);
    BestFirst(soft[i], m);
    TopPriorityIsTop(soft);
  }

  lemma AboveHardMatch(subs: seq<Subtable>, f: Bits, version: nat, hard: Option<Match>, nOf: nat -> nat, id: nat, pri: int)
    requires SameSize(subs, f) && HardHit(subs, f, version, hard) && AboveHard(subs, f, version, pri)
    requires CountsAsMet(subs, f, version, id, pri, nOf)
    ensures pri > HardPriority(hard)
  {
    hide Hit, Crowd;
    var b :| ClauseMet(subs, f, version, id, b, pri);
    var m, c :| Hit(subs, f, version, m) && m.priority == pri && c in m.conjs && c.id == id && c.clause == b;
  }

  /** Some conjunction of a higher priority that was looked up has a rule. */
  ghost predicate Outranked(cfg: Config, subs: seq<Subtable>, f: Bits, version: nat, ts: seq<Try>, pri: int)
    requires ValidConfig(cfg) && IsFlow(cfg, f) && SameSize(subs, f)
  {
    exists t :: t in ts && t.pri > pri && RuleFor(cfg, subs, f, version, t.id).Some?
  }

  /** The search comes to the one conjunction that counts as met at a priority above the ordinary matches,
      unless one of a higher priority has a rule. */
  lemma {:induction false} SearchComesTo(cfg: Config, subs: seq<Subtable>, f: Bits, version: nat, acc: Scan, tags: seq<nat>,
                                         nOf: nat -> nat, id: nat, pri: int)
    requires ValidConfig(cfg) && IsFlow(cfg, f) && SameSize(subs, f) && Ordered(subs) && AllDistinct(subs, version)
    requires ProperHits(subs, f, version, nOf) && Searching(subs, f, version, acc, tags)
    requires AboveHard(subs, f, version, pri) && OnlyAt(subs, f, version, nOf, id, pri)
    requires Waiting(subs, f, version, acc.soft, tags, pri)
    ensures
      var ts := Tried(cfg, subs, f, version, acc);
      Try(id, pri) in ts || Outranked(cfg, subs, f, version, ts, pri)
    decreases Weight(acc.soft)
  {
    hide SoftInv, Placed, Round, FallBack, TopPriority, CountAt, Candidates, LookedUp, SetConjId, PlainLookup, Waiting,
      CountsAsMet, AboveHard, AllDistinct, Ordered, SoftHit, ProperHits, DropDead, Outranked;
    var tags' := Turn(subs, f, version, acc, tags);
    var soft := DropDead(acc.soft, 0, HardPriority(acc.hard));
    HardIsHit(subs, f, version, acc);
    AboveHardMatch(subs, f, version, acc.hard, nOf, id, pri);
    PlacedSize(subs, f, version, soft, tags');
    StillAbove(subs, f, version, soft, tags', nOf, id, pri);
    var acc', top := Scan(acc.hard, soft), TopPriority(soft);
    TopPriorityIsTop(soft);
    var ids := LookedUp(cfg, subs, f, version, Candidates(soft, top, CountAt(soft, top), 0, map[]));
    var r := Round(cfg, subs, f, version, soft, top, CountAt(soft, top), 0, map[]);
    var ts := Tried(cfg, subs, f, version, acc);
    if top == pri {
      RoundFinds(cfg, subs, f, version, soft, tags', nOf, id, pri);
      var k :| 0 <= k < |ids| && ids[k] == id;
      assert ts[k] == Try(id, pri);
    } else if r.Some? {
      RoundLooksUp(cfg, subs, f, version, soft, top, CountAt(soft, top), 0, map[]);
      assert ts[|ids| - 1] == Try(ids[|ids| - 1], top);
      OutrankedBy(cfg, subs, f, version, ts, pri, |ids| - 1);
    } else {
      DropDeadWeight(acc.soft, 0, HardPriority(acc.hard));
      NextTurn(subs, f, version, acc', tags');
      var rest := Tried(cfg, subs, f, version, FallBack(acc', version, top, 0));
      SearchComesTo(cfg, subs, f, version, FallBack(acc', version, top, 0), tags', nOf, id, pri);
      assert ts == TriesOf(ids, top) + rest;
      OutrankedLater(cfg, subs, f, version, TriesOf(ids, top), rest, pri);
    }
  }

  lemma HardIsHit(subs: seq<Subtable>, f: Bits, version: nat, acc: Scan)
    requires SameSize(subs, f) && SoftInv(subs, f, version, acc)
    ensures HardHit(subs, f, version, acc.hard)
  {
  }

  lemma OutrankedBy(cfg: Config, subs: seq<Subtable>, f: Bits, version: nat, ts: seq<Try>, pri: int, k: nat)
    requires ValidConfig(cfg) && IsFlow(cfg, f) && SameSize(subs, f)
    requires k < |ts| && ts[k].pri > pri && RuleFor(cfg, subs, f, version, ts[k].id).Some?
    ensures Outranked(cfg, subs, f, version, ts, pri)
  {
  }

  lemma OutrankedLater(cfg: Config, subs: seq<Subtable>, f: Bits, version: nat, now: seq<Try>, rest: seq<Try>, pri: int)
    requires ValidConfig(cfg) && IsFlow(cfg, f) && SameSize(subs, f)
    ensures Outranked(cfg, subs, f, version, rest, pri) ==> Outranked(cfg, subs, f, version, now + rest, pri)
  {
    hide PlainLookup, SetConjId;
  }

  // ----- lookups

  /** What a lookup of `f` looks up on the way. */
  function LookupTries(cfg: Config, subs: seq<Subtable>, f: Bits, version: nat): seq<Try>
    requires ValidConfig(cfg) && IsFlow(cfg, f) && SameSize(subs, f)
  {
    Tried(cfg, subs, f, version, ScanFrom(subs, f, version, true, Scan(None, [])))
  }

  /** Every conjunction that a lookup looks up counts as met, at one priority above every ordinary match.
      The lookup gives the rule for the last of them, those before it having none; or none has a rule, and
      it gives the best ordinary match. */
  lemma ConjunctiveLookup(cfg: Config, subs: seq<Subtable>, f: Bits, version: nat, nOf: nat -> nat)
    requires ValidConfig(cfg) && IsFlow(cfg, f) && SameSize(subs, f) && Ordered(subs)
    requires AllDistinct(subs, version) && ConsistentHits(subs, f, version, nOf)
    ensures
      var r, ts := Lookup(cfg, subs, f, version), LookupTries(cfg, subs, f, version);
      && (forall t :: t in ts ==> CountsAsMet(subs, f, version, t.id, t.pri, nOf) && AboveHard(subs, f, version, t.pri))
      && (forall k :: 0 <= k < |ts| - 1 ==> RuleFor(cfg, subs, f, version, ts[k].id).None?)
      && if ts != [] && RuleFor(cfg, subs, f, version, ts[|ts| - 1].id).Some?
         then r == RuleFor(cfg, subs, f, version, ts[|ts| - 1].id)
         else BestHard(subs, f, version, r)
  {
    hide SoftInv, Placed, ScanFrom, SoftSearch, Tried, Waiting, RuleFor, CountsAsMet, AboveHard, BestHard;
    var start := ScanFrom(subs, f, version, true, Scan(None, []));
    SoftInvStart(subs, f, version);
    var tags := WaitingStart(subs, f, version);
    TriedSound(cfg, subs, f, version, start, tags, nOf);
    SearchGives(cfg, subs, f, version, start);
  }

  /** The rule of a conjunction that counts as met above `pri` is found. */
  ghost predicate HigherWins(cfg: Config, subs: seq<Subtable>, f: Bits, version: nat, nOf: nat -> nat, pri: int, r: Option<Match>)
    requires ValidConfig(cfg) && IsFlow(cfg, f) && SameSize(subs, f)
  {
    exists id, pri' ::
      pri' > pri && CountsAsMet(subs, f, version, id, pri', nOf) && r.Some? && r == RuleFor(cfg, subs, f, version, id)
  }

  /** The highest conjunction wins: if just one counts as met at a priority above every ordinary match, and
      it has a rule, then the lookup gives that rule or the rule of a conjunction of a higher priority. */
  lemma HighestWins(cfg: Config, subs: seq<Subtable>, f: Bits, version: nat, nOf: nat -> nat, id: nat, pri: int)
    requires ValidConfig(cfg) && IsFlow(cfg, f) && SameSize(subs, f) && Ordered(subs) && AllDistinct(subs, version)
    requires ProperHits(subs, f, version, nOf) && AboveHard(subs, f, version, pri)
    requires OnlyAt(subs, f, version, nOf, id, pri) && RuleFor(cfg, subs, f, version, id).Some?
    ensures
      var r := Lookup(cfg, subs, f, version);
      r == RuleFor(cfg, subs, f, version, id) || HigherWins(cfg, subs, f, version, nOf, pri, r)
  {
    hide SoftInv, Placed, ScanFrom, Lookup, Tried, Waiting, RuleFor, CountsAsMet, AboveHard, BestHard, Outranked;
    var start := ScanFrom(subs, f, version, true, Scan(None, []));
    SoftInvStart(subs, f, version);
    var tags := WaitingStart(subs, f, version);
    PlacedSize(subs, f, version, start.soft, tags);
    SearchComesTo(cfg, subs, f, version, start, tags, nOf, id, pri);
    ConjunctiveLookup(cfg, subs, f, version, nOf);
    LastDecides(cfg, subs, f, version, nOf, id, pri);
  }

  lemma LastDecides(cfg: Config, subs: seq<Subtable>, f: Bits, version: nat, nOf: nat -> nat, id: nat, pri: int)
    requires ValidConfig(cfg) && IsFlow(cfg, f) && SameSize(subs, f) && RuleFor(cfg, subs, f, version, id).Some?
    requires
      var r, ts := Lookup(cfg, subs, f, version), LookupTries(cfg, subs, f, version);
      && (forall t :: t in ts ==> CountsAsMet(subs, f, version, t.id, t.pri, nOf))
      && (forall k :: 0 <= k < |ts| - 1 ==> RuleFor(cfg, subs, f, version, ts[k].id).None?)
      && (ts != [] && RuleFor(cfg, subs, f, version, ts[|ts| - 1].id).Some? ==>
            r == RuleFor(cfg, subs, f, version, ts[|ts| - 1].id))
      && (Try(id, pri) in ts || Outranked(cfg, subs, f, version, ts, pri))
    ensures
      var r := Lookup(cfg, subs, f, version);
      r == RuleFor(cfg, subs, f, version, id) || HigherWins(cfg, subs, f, version, nOf, pri, r)
  {
    hide Lookup, LookupTries, RuleFor, CountsAsMet;
    var ts := LookupTries(cfg, subs, f, version);
    if Try(id, pri) in ts {
      var k :| 0 <= k < |ts| && ts[k] == Try(id, pri);
    } else {
      var t :| t in ts && t.pri > pri && RuleFor(cfg, subs, f, version, t.id).Some?;
      var k :| 0 <= k < |ts| && ts[k] == t;
    }
  }

  /** So a conjunction decides the lookup when it is the only one that counts as met at its priority, has a
      rule, and none that counts as met above it has one. */
  lemma ConjunctionFound(cfg: Config, subs: seq<Subtable>, f: Bits, version: nat, nOf: nat -> nat, id: nat, pri: int)
    requires ValidConfig(cfg) && IsFlow(cfg, f) && SameSize(subs, f) && Ordered(subs) && AllDistinct(subs, version)
    requires ProperHits(subs, f, version, nOf) && AboveHard(subs, f, version, pri)
    requires OnlyAt(subs, f, version, nOf, id, pri) && RuleFor(cfg, subs, f, version, id).Some?
    requires forall id', pri' :: pri' > pri && CountsAsMet(subs, f, version, id', pri', nOf) ==>
      RuleFor(cfg, subs, f, version, id').None?
    ensures Lookup(cfg, subs, f, version) == RuleFor(cfg, subs, f, version, id)
    ensures id < TWO_32 && WholeIds(cfg, subs) ==> HasRuleFor(cfg, subs, f, version, id, Lookup(cfg, subs, f, version).value)
  {
    hide Lookup, RuleFor, CountsAsMet, AboveHard, OnlyAt, ProperHits, AllDistinct, Ordered, WholeIds, HasRuleFor;
    HighestWins(cfg, subs, f, version, nOf, id, pri);
    RuleIsForId(cfg, subs, f, version, id);
  }

  /** `m` is an ordinary rule for conjunction `id`: it is visible, it matches on this id or on none, and the rest
      of it matches `f`. */
  ghost predicate HasRuleFor(cfg: Config, subs: seq<Subtable>, f: Bits, version: nat, id: nat, m: Match)
    requires ValidConfig(cfg) && IsFlow(cfg, f) && WholeIds(cfg, subs)
  {
    && m.conjs == []
    && exists k, j :: 0 <= k < |subs| && 0 <= j < |subs[k].heads| && HeadOk(subs[k].mask, subs[k].heads[j])
                      && ForId(cfg, subs[k], j, f, version, id, m)
  }

  /** The rule that a conjunction leads to is for its id. */
  lemma RuleIsForId(cfg: Config, subs: seq<Subtable>, f: Bits, version: nat, id: nat)
    requires ValidConfig(cfg) && IsFlow(cfg, f) && SameSize(subs, f) && Ordered(subs)
    ensures id < TWO_32 && WholeIds(cfg, subs) && RuleFor(cfg, subs, f, version, id).Some? ==>
      HasRuleFor(cfg, subs, f, version, id, RuleFor(cfg, subs, f, version, id).value)
  {
    hide SetConjId, SubTail, ForId, ScanFrom, Hit, HitIn;
    var g, r := SetConjId(cfg, f, id), RuleFor(cfg, subs, f, version, id);
    if id < TWO_32 && WholeIds(cfg, subs) && r.Some? {
      assert subs[0..] == subs;
      ScanLeads(subs, g, version, 0, Scan(None, []));
      var k :| 0 <= k < |subs| && FirstOf(SubTail(subs[k], g, version), r.value);
      LeadIsVisible(subs[k], g, version);
      TailIsHitIn(subs[k], g, version, r.value);
      HitInHit(subs, g, version, r.value);
      HitWithId(cfg, subs, f, version, id, r.value);
    }
  }

  /** The best of the ordinary rules for the id is found exactly when none of them stands behind a conjunctive
      rule and above every one that leads its list. */
  lemma BestForId(cfg: Config, subs: seq<Subtable>, f: Bits, version: nat, id: nat)
    requires ValidConfig(cfg) && IsFlow(cfg, f) && SameSize(subs, f) && Ordered(subs)
    requires id < TWO_32 && WholeIds(cfg, subs)
    ensures
      var r := RuleFor(cfg, subs, f, version, id);
      && SameSize(subs, SetConjId(cfg, f, id))
      && ((r.Some? ==> HasRuleFor(cfg, subs, f, version, id, r.value))
          && (forall h :: HasRuleFor(cfg, subs, f, version, id, h) ==> r.Some? && h.priority <= r.value.priority)
          <==>
          forall h :: HasRuleFor(cfg, subs, f, version, id, h) ==>
            exists m :: Leads(subs, SetConjId(cfg, f, id), version, m) && h.priority <= m.priority)
  {
    hide SetConjId, SubTail, ForId, ScanFrom, Hit, HitIn, Leads;
    var g := SetConjId(cfg, f, id);
    forall h ensures HasRuleFor(cfg, subs, f, version, id, h) <==> Hit(subs, g, version, h) && h.conjs == [] {
      HitWithId(cfg, subs, f, version, id, h);
    }
    PlainLookupExact(subs, g, version);
  }

  lemma LeadIsVisible(st: Subtable, f: Bits, version: nat)
    requires |st.mask| == |f| && SubTail(st, f, version) != []
    ensures SubTail(st, f, version)[0].VisibleIn(version)
  {
    var j := HeadFound(st.heads, And(f, st.mask), version);
  }

  /** When no conjunction that counts as met above the ordinary matches has a rule, the best ordinary match
      is found. */
  lemma NoConjunctionFound(cfg: Config, subs: seq<Subtable>, f: Bits, version: nat, nOf: nat -> nat)
    requires ValidConfig(cfg) && IsFlow(cfg, f) && SameSize(subs, f) && Ordered(subs)
    requires AllDistinct(subs, version) && ConsistentHits(subs, f, version, nOf)
    requires forall id, pri :: CountsAsMet(subs, f, version, id, pri, nOf) && AboveHard(subs, f, version, pri) ==>
      RuleFor(cfg, subs, f, version, id).None?
    ensures BestHard(subs, f, version, Lookup(cfg, subs, f, version))
  {
    hide Lookup, LookupTries, RuleFor, CountsAsMet, AboveHard, AllDistinct, Ordered, BestHard, ConsistentHits;
    ConjunctiveLookup(cfg, subs, f, version, nOf);
    var ts := LookupTries(cfg, subs, f, version);
    if ts != [] {
      assert ts[|ts| - 1] in ts;
    }
  }

  // ----- what counts as met

  /** The subtable has a matching rule of priority `pri` with the clause. */
  ghost predicate HasClause(st: Subtable, f: Bits, version: nat, id: nat, b: nat, pri: int)
    requires |st.mask| == |f|
  {
    exists m, c :: HitIn(st, f, version, m) && m.priority == pri && c in m.conjs && c.id == id && c.clause == b
  }

  /** In a subtable at most one visible rule of a priority matches. */
  lemma OneHit(subs: seq<Subtable>, f: Bits, version: nat, k: nat, m: Match, m': Match)
    requires SameSize(subs, f) && Ordered(subs) && AllDistinct(subs, version) && k < |subs|
    requires HitIn(subs[k], f, version, m) && HitIn(subs[k], f, version, m') && m.priority == m'.priority
    ensures m == m'
  {
    var st := subs[k];
    var j :| 0 <= j < |st.heads| && InHead(st, j, f, version, m);
    var j' :| 0 <= j' < |st.heads| && InHead(st, j', f, version, m');
    assert HeadsOk(st.mask, st.heads);
    assert j == j';
    var list := st.heads[j].list;
    assert Distinct(list, version);
    var a :| 0 <= a < |list| && list[a] == m;
    var a' :| 0 <= a' < |list| && list[a'] == m';
  }

  lemma OneClause(subs: seq<Subtable>, f: Bits, version: nat, nOf: nat -> nat, k: nat, id: nat, b: nat, b': nat, pri: int)
    requires SameSize(subs, f) && Ordered(subs) && AllDistinct(subs, version) && ProperHits(subs, f, version, nOf)
    requires k < |subs| && HasClause(subs[k], f, version, id, b, pri) && HasClause(subs[k], f, version, id, b', pri)
    ensures b == b'
  {
    hide Hit, HitIn, Ordered, AllDistinct, ConsistentHits;
    var m, c :| HitIn(subs[k], f, version, m) && m.priority == pri && c in m.conjs && c.id == id && c.clause == b;
    var m', c' :| HitIn(subs[k], f, version, m') && m'.priority == pri && c' in m'.conjs && c'.id == id && c'.clause == b';
    OneHit(subs, f, version, k, m, m');
    HitInHit(subs, f, version, m);
    assert OncePerId(m.conjs);
    SameConjunction(m.conjs, c, c');
  }

  lemma SameConjunction(conjs: seq<Conjunction>, c: Conjunction, c': Conjunction)
    requires OncePerId(conjs) && c in conjs && c' in conjs && c.id == c'.id
    ensures c == c'
  {
    var i :| 0 <= i < |conjs| && conjs[i] == c;
    var j :| 0 <= j < |conjs| && conjs[j] == c';
  }

  /** Each of the first `n` clauses that match needs a subtable of its own. */
  lemma {:induction false} ClauseTables(subs: seq<Subtable>, f: Bits, version: nat, nOf: nat -> nat, id: nat, n: nat, pri: int)
    returns (ks: set<nat>)
    requires SameSize(subs, f) && Ordered(subs) && AllDistinct(subs, version) && ProperHits(subs, f, version, nOf)
    requires forall b: nat :: b < n ==> ClauseMet(subs, f, version, id, b, pri)
    ensures |ks| == n && ks <= Crowd(subs, f, version, pri)
    ensures forall k :: k in ks ==> k < |subs| && exists b: nat :: b < n && HasClause(subs[k], f, version, id, b, pri)
    decreases n
  {
    hide Ordered, AllDistinct, ProperHits, ClauseMet, HasClause, Crowd;
    if n == 0 {
      ks := {};
    } else {
      var before := ClauseTables(subs, f, version, nOf, id, n - 1, pri);
      var k := TableOf(subs, f, version, id, n - 1, pri);
      forall k' | k' in before ensures k' != k {
        var b: nat :| b < n - 1 && HasClause(subs[k'], f, version, id, b, pri);
        if k' == k { OneClause(subs, f, version, nOf, k, id, b, n - 1, pri); }
      }
      ks := before + {k};
    }
  }

  lemma TableOf(subs: seq<Subtable>, f: Bits, version: nat, id: nat, b: nat, pri: int) returns (k: nat)
    requires SameSize(subs, f) && ClauseMet(subs, f, version, id, b, pri)
    ensures k < |subs| && HasClause(subs[k], f, version, id, b, pri) && k in Crowd(subs, f, version, pri)
  {
    hide Hit, HitIn;
    var m, c :| Hit(subs, f, version, m) && m.priority == pri && c in m.conjs && c.id == id && c.clause == b;
    HitInHit(subs, f, version, m);
    k :| 0 <= k < |subs| && HitIn(subs[k], f, version, m);
  }

  /** A conjunction of fewer than 64 clauses counts as met if and only if it is; one of 64 counts as met if
      and only if a single clause matches and 64 subtables have a matching conjunctive rule of the priority. */
  lemma MetExactly(subs: seq<Subtable>, f: Bits, version: nat, nOf: nat -> nat, id: nat, pri: int)
    requires SameSize(subs, f) && Ordered(subs) && AllDistinct(subs, version) && ProperHits(subs, f, version, nOf)
    ensures CountsAsMet(subs, f, version, id, pri, nOf) <==>
      if nOf(id) < CLAUSE_BITS then ConjunctionMet(subs, f, version, id, pri, nOf)
      else (exists b :: ClauseMet(subs, f, version, id, b, pri)) && CLAUSE_BITS <= |Crowd(subs, f, version, pri)|
  {
    hide Ordered, AllDistinct, ClauseMet, Crowd, ConsistentHits, OncePerId;
    if nOf(id) < CLAUSE_BITS && ConjunctionMet(subs, f, version, id, pri, nOf) {
      var ks := ClauseTables(subs, f, version, nOf, id, nOf(id), pri);
      Fewer(ks, Crowd(subs, f, version, pri));
      assert ClauseMet(subs, f, version, id, 0, pri);
    }
  }

  lemma {:induction false} FoundIsNamed(conjs: seq<Conjunction>, maxClauses: nat, matches: Clauses)
    ensures
      var found := FindConjunctive(conjs, maxClauses, matches).0;
      found.Some? ==> exists k :: 0 <= k < |conjs| && conjs[k].id == found.value
    decreases |conjs|
  {
    if conjs != [] {
      var c, rest := conjs[0], conjs[1..];
      var matches' := if c.nClauses > maxClauses then matches else matches[c.id := Record(c, matches)];
      FoundIsNamed(rest, maxClauses, matches');
      var found := FindConjunctive(rest, maxClauses, matches').0;
      if found.Some? {
        var k :| 0 <= k < |rest| && rest[k].id == found.value;
        assert conjs[k + 1].id == found.value;
      }
    }
  }

  /** Of the conjunctions of a rule, the `k`-th is found complete if and only if none before it is, it has no
      more clauses than there are soft matches, and its clause is the last one missing. */
  lemma {:induction false} FoundExactly(conjs: seq<Conjunction>, maxClauses: nat, matches: Clauses, k: nat)
    requires k < |conjs| && OncePerId(conjs)
    ensures FindConjunctive(conjs, maxClauses, matches).0 == Some(conjs[k].id) <==>
      && FindConjunctive(conjs[..k], maxClauses, matches).0.None?
      && conjs[k].nClauses <= maxClauses && Record(conjs[k], matches) == HighBits(0)
    decreases k
  {
    hide HighBits;
    var c, rest := conjs[0], conjs[1..];
    var matches' := if c.nClauses > maxClauses then matches else matches[c.id := Record(c, matches)];
    assert OncePerId(rest);
    if k == 0 {
      FoundIsNamed(rest, maxClauses, matches');
    } else {
      assert conjs[..k][1..] == rest[..k - 1] && conjs[..k][0] == c;
      assert conjs[k].id != c.id;
      FoundExactly(rest, maxClauses, matches', k - 1);
    }
  }

  /** A conjunction of which no clause has been seen is complete with the first one if and only if it has 64
      clauses, of the numbers that OpenFlow accepts, and there are as many soft matches of the priority. */
  lemma OneClauseCompletes(conjs: seq<Conjunction>, maxClauses: nat, matches: Clauses, k: nat)
    requires k < |conjs| && OncePerId(conjs) && conjs[k].id !in matches && 2 <= conjs[k].nClauses <= CLAUSE_BITS
    ensures FindConjunctive(conjs, maxClauses, matches).0 == Some(conjs[k].id) <==>
      conjs[k].nClauses == CLAUSE_BITS <= maxClauses && FindConjunctive(conjs[..k], maxClauses, matches).0.None?
  {
    hide FindConjunctive;
    FoundExactly(conjs, maxClauses, matches, k);
    FreshRecord(conjs[k], matches);
  }

  lemma FreshRecord(c: Conjunction, matches: Clauses)
    requires c.id !in matches && 2 <= c.nClauses <= CLAUSE_BITS && c.clause < c.nClauses
    ensures Record(c, matches) == HighBits(0) <==> c.nClauses == CLAUSE_BITS
  {
    hide HighBits;
    var bits := Record(c, matches);
    if c.nClauses < CLAUSE_BITS {
      var other := if c.clause == 0 then 1 else 0;
      assert other !in bits && other in HighBits(0);
    } else {
      assert bits == HighBits(0);
    }
  }
}
