/** Where the soft matches of a lookup come from: each from a subtable of its own.  So the number of
    soft matches of a priority, which decides the conjunctions that can be complete, is the number of
    subtables with a matching conjunctive rule of that priority. */
module SoftMatches {
  import opened Bits
  import opened ClassifierLookup
  import opened Flows
  import opened LookupMeaning
  import opened Sequences
  import opened Subtables
  import opened Wrappers

  /** `m` is a visible rule of the subtable that matches `f`. */
  ghost predicate HitIn(st: Subtable, f: Bits, version: nat, m: Match)
    requires |st.mask| == |f|
  {
    exists j :: 0 <= j < |st.heads| && InHead(st, j, f, version, m)
  }

  lemma HitInHit(subs: seq<Subtable>, f: Bits, version: nat, m: Match)
    requires SameSize(subs, f)
    ensures Hit(subs, f, version, m) <==> exists k :: 0 <= k < |subs| && HitIn(subs[k], f, version, m)
  {
    if Hit(subs, f, version, m) {
      var k, j :| 0 <= k < |subs| && 0 <= j < |subs[k].heads| && InHead(subs[k], j, f, version, m);
      assert HitIn(subs[k], f, version, m);
    }
  }

  lemma HitInTail(subs: seq<Subtable>, f: Bits, version: nat, k: nat, m: Match)
    requires SameSize(subs, f) && Ordered(subs) && k < |subs| && HitIn(subs[k], f, version, m)
    ensures m in SubTail(subs[k], f, version) && m.VisibleIn(version) && Hit(subs, f, version, m)
  {
    var j :| 0 <= j < |subs[k].heads| && InHead(subs[k], j, f, version, m);
    HeadKept(subs[k].heads, And(f, subs[k].mask), version, j, m);
  }

  lemma TailIsHitIn(st: Subtable, f: Bits, version: nat, m: Match)
    requires |st.mask| == |f| && m in SubTail(st, f, version) && m.VisibleIn(version)
    ensures HitIn(st, f, version, m)
  {
    var j, d := TailOfHead(st, f, version);
    assert InHead(st, j, f, version, m);
  }

  ghost predicate SoftIn(st: Subtable, f: Bits, version: nat, pri: int)
    requires |st.mask| == |f|
  {
    exists m :: HitIn(st, f, version, m) && m.priority == pri && m.conjs != []
  }

  /** The subtables with a matching conjunctive rule of priority `pri`. */
  ghost function Crowd(subs: seq<Subtable>, f: Bits, version: nat, pri: int): set<nat>
    requires SameSize(subs, f)
  {
    set k | 0 <= k < |subs| && SoftIn(subs[k], f, version, pri)
  }

  // ----- which subtable each soft match is from

  /** The `i`-th soft match is from subtable `tags[i]`, and no two are from the same one. */
  ghost predicate Placed(subs: seq<Subtable>, f: Bits, version: nat, soft: seq<seq<Match>>, tags: seq<nat>)
    requires SameSize(subs, f)
  {
    && |tags| == |soft| && NoRepeats(tags)
    && forall i :: 0 <= i < |soft| ==> tags[i] < |subs| && EndOf(soft[i], SubTail(subs[tags[i]], f, version))
  }

  /** Every matching conjunctive rule of priority `pri` waits in the soft match of its subtable. */
  ghost predicate Waiting(subs: seq<Subtable>, f: Bits, version: nat, soft: seq<seq<Match>>, tags: seq<nat>, pri: int)
    requires SameSize(subs, f) && |tags| == |soft|
  {
    forall k, m :: 0 <= k < |subs| && HitIn(subs[k], f, version, m) && m.conjs != [] && m.priority == pri ==>
      WaitsAt(soft, tags, k, m)
  }

  predicate WaitsAt(soft: seq<seq<Match>>, tags: seq<nat>, k: nat, m: Match)
    requires |tags| == |soft|
  {
    exists i :: 0 <= i < |soft| && tags[i] == k && m in soft[i]
  }

  // ----- the start

  /** The main loop has nothing to collect from the subtable, or has collected it. */
  ghost predicate Collected(st: Subtable, f: Bits, version: nat, acc: Scan, tags: seq<nat>, k: nat)
    requires |st.mask| == |f| && |tags| == |acc.soft|
  {
    var tail := SubTail(st, f, version);
    || tail == [] || tail[0].conjs == [] || tail[0].priority <= HardPriority(acc.hard)
    || exists i :: 0 <= i < |tags| && tags[i] == k && acc.soft[i] == tail
  }

  lemma {:induction false} ScanPlaced(subs: seq<Subtable>, f: Bits, version: nat, i: nat, acc: Scan, tags: seq<nat>)
    returns (tags': seq<nat>)
    requires SameSize(subs, f) && Ordered(subs) && i <= |subs| && Placed(subs, f, version, acc.soft, tags)
    requires forall t :: t in tags ==> t < i
    requires forall k :: 0 <= k < i ==> Collected(subs[k], f, version, acc, tags, k)
    ensures
      var end := ScanFrom(subs[i..], f, version, true, acc);
      && Placed(subs, f, version, end.soft, tags')
      && forall k :: 0 <= k < |subs| ==> Collected(subs[k], f, version, end, tags', k)
    decreases |subs| - i
  {
    hide SubTail, Ordered;
    if i < |subs| && subs[i].maxPriority >= HardPriority(acc.hard) + 1 {
      var acc', tags1 := ScanPlacedStep(subs, f, version, i, acc, tags);
      assert subs[i..][0] == subs[i] && subs[i..][1..] == subs[i + 1..];
      tags' := ScanPlaced(subs, f, version, i + 1, acc', tags1);
    } else {
      tags' := tags;
      forall k | 0 <= k < |subs| ensures Collected(subs[k], f, version, acc, tags, k) {
        if i <= k { NothingBelow(subs, f, version, i, k, acc, tags); }
      }
    }
  }

  lemma NothingBelow(subs: seq<Subtable>, f: Bits, version: nat, i: nat, k: nat, acc: Scan, tags: seq<nat>)
    requires SameSize(subs, f) && Ordered(subs) && i <= k < |subs| && |tags| == |acc.soft|
    requires subs[i].maxPriority < HardPriority(acc.hard) + 1
    ensures Collected(subs[k], f, version, acc, tags, k)
  {
    hide SubTail;
    TailFacts(subs, f, version, k);
  }

  lemma ScanPlacedStep(subs: seq<Subtable>, f: Bits, version: nat, i: nat, acc: Scan, tags: seq<nat>)
    returns (acc': Scan, tags': seq<nat>)
    requires SameSize(subs, f) && i < |subs| && Placed(subs, f, version, acc.soft, tags)
    requires forall t :: t in tags ==> t < i
    requires forall k :: 0 <= k < i ==> Collected(subs[k], f, version, acc, tags, k)
    ensures acc' == Consider(acc, SubTail(subs[i], f, version), true)
    ensures Placed(subs, f, version, acc'.soft, tags') && forall t :: t in tags' ==> t < i + 1
    ensures forall k :: 0 <= k < i + 1 ==> Collected(subs[k], f, version, acc', tags', k)
  {
    hide SubTail;
    var tail := SubTail(subs[i], f, version);
    acc' := Consider(acc, tail, true);
    tags' := if acc'.soft == acc.soft then tags else tags + [i];
    if acc'.soft != acc.soft { PlacedMore(subs, f, version, acc.soft, tags, i); }
    forall k | 0 <= k < i + 1 ensures Collected(subs[k], f, version, acc', tags', k) {
      if k < i {
        assert Collected(subs[k], f, version, acc, tags, k);
        StaysCollected(subs[k], f, version, acc, acc', tags, tags', k);
      } else if acc'.soft != acc.soft {
        assert tags'[|tags|] == i && acc'.soft[|tags|] == tail;
      }
    }
  }

  lemma PlacedMore(subs: seq<Subtable>, f: Bits, version: nat, soft: seq<seq<Match>>, tags: seq<nat>, i: nat)
    requires SameSize(subs, f) && i < |subs| && Placed(subs, f, version, soft, tags)
    requires forall t :: t in tags ==> t < i
    ensures Placed(subs, f, version, soft + [SubTail(subs[i], f, version)], tags + [i])
  {
    hide SubTail;
    var tail := SubTail(subs[i], f, version);
    assert tail == tail[|tail| - |tail|..];
    forall k | 0 <= k < |tags| ensures tags[k] != i { assert tags[k] in tags; }
  }

  lemma StaysCollected(st: Subtable, f: Bits, version: nat, acc: Scan, acc': Scan, tags: seq<nat>, tags': seq<nat>, k: nat)
    requires |st.mask| == |f| && |tags| == |acc.soft| && |tags'| == |acc'.soft|
    requires Collected(st, f, version, acc, tags, k)
    requires tags <= tags' && acc.soft <= acc'.soft && HardPriority(acc.hard) <= HardPriority(acc'.hard)
    ensures Collected(st, f, version, acc', tags', k)
  {
    hide SubTail;
    var tail := SubTail(st, f, version);
    if i :| 0 <= i < |tags| && tags[i] == k && acc.soft[i] == tail {
      assert tags'[i] == k && acc'.soft[i] == tail;
    }
  }

  /** At the start every matching conjunctive rule above the ordinary ones waits. */
  lemma WaitingStart(subs: seq<Subtable>, f: Bits, version: nat) returns (tags: seq<nat>)
    requires SameSize(subs, f) && Ordered(subs)
    ensures
      var end := ScanFrom(subs, f, version, true, Scan(None, []));
      && Placed(subs, f, version, end.soft, tags)
      && forall pri :: AboveHard(subs, f, version, pri) ==> Waiting(subs, f, version, end.soft, tags, pri)
  {
    hide SubTail, ScanFrom, AboveHard;
    var end := ScanFrom(subs, f, version, true, Scan(None, []));
    assert subs[0..] == subs;
    tags := ScanPlaced(subs, f, version, 0, Scan(None, []), []);
    SoftInvStart(subs, f, version);
    forall pri | AboveHard(subs, f, version, pri) ensures Waiting(subs, f, version, end.soft, tags, pri) {
      WaitsFromStart(subs, f, version, end, tags, pri);
    }
  }

  lemma WaitsFromStart(subs: seq<Subtable>, f: Bits, version: nat, end: Scan, tags: seq<nat>, pri: int)
    requires SameSize(subs, f) && Ordered(subs) && |tags| == |end.soft| && SoftInv(subs, f, version, end)
    requires forall k :: 0 <= k < |subs| ==> Collected(subs[k], f, version, end, tags, k)
    requires AboveHard(subs, f, version, pri)
    ensures Waiting(subs, f, version, end.soft, tags, pri)
  {
    hide SubTail, Hit, HitIn;
    forall k, m | 0 <= k < |subs| && HitIn(subs[k], f, version, m) && m.conjs != [] && m.priority == pri
      ensures WaitsAt(end.soft, tags, k, m)
    {
      HitInTail(subs, f, version, k, m);
      TailFacts(subs, f, version, k);
      var tail := SubTail(subs[k], f, version);
      BestFirst(tail, m);
      assert tail[0] in tail;
      assert Collected(subs[k], f, version, end, tags, k);
    }
  }

  // ----- the loop

  /** Deleting dead soft matches keeps the tags of the others. */
  lemma {:induction false} DropDeadTags(soft: seq<seq<Match>>, tags: seq<nat>, i: nat, pri: int) returns (tags': seq<nat>)
    requires |tags| == |soft| && NoRepeats(tags)
    requires i <= |soft| && forall k :: 0 <= k < i ==> soft[k] != [] && soft[k][0].priority > pri
    ensures
      var soft' := DropDead(soft, i, pri);
      && |tags'| == |soft'| && NoRepeats(tags')
      && (forall a :: 0 <= a < |soft'| ==> Tagged(soft, tags, soft'[a], tags'[a]))
      && (forall b :: 0 <= b < |soft| && soft[b] != [] && soft[b][0].priority > pri ==> Tagged(soft', tags', soft[b], tags[b]))
    decreases |soft| - i
  {
    hide NoRepeats;
    if i == |soft| {
      tags' := tags;
      forall a | 0 <= a < |soft| ensures Tagged(soft, tags, soft[a], tags[a]) {}
    } else if soft[i] == [] || soft[i][0].priority <= pri {
      var n := |soft| - 1;
      var soft1, tags1 := soft[i := soft[n]][..n], tags[i := tags[n]][..n];
      StillDistinct(tags, i);
      tags' := DropDeadTags(soft1, tags1, i, pri);
      TaggedBack(soft, tags, soft1, tags1, DropDead(soft1, i, pri), tags', i);
      TaggedOn(soft, tags, soft1, tags1, DropDead(soft1, i, pri), tags', i, pri);
    } else {
      tags' := DropDeadTags(soft, tags, i + 1, pri);
    }
  }

  /** The soft match `s` has the tag `t`. */
  predicate Tagged(soft: seq<seq<Match>>, tags: seq<nat>, s: seq<Match>, t: nat)
    requires |tags| == |soft|
  {
    exists i :: 0 <= i < |soft| && soft[i] == s && tags[i] == t
  }

  lemma StillDistinct(tags: seq<nat>, i: nat)
    requires NoRepeats(tags) && i < |tags|
    ensures NoRepeats(tags[i := tags[|tags| - 1]][..|tags| - 1])
  {
  }

  lemma TaggedBack(soft: seq<seq<Match>>, tags: seq<nat>, soft1: seq<seq<Match>>, tags1: seq<nat>,
                  soft': seq<seq<Match>>, tags': seq<nat>, i: nat)
    requires |tags| == |soft| && i < |soft| && |tags'| == |soft'|
    requires soft1 == soft[i := soft[|soft| - 1]][..|soft| - 1] && tags1 == tags[i := tags[|soft| - 1]][..|soft| - 1]
    requires forall a :: 0 <= a < |soft'| ==> Tagged(soft1, tags1, soft'[a], tags'[a])
    ensures forall a :: 0 <= a < |soft'| ==> Tagged(soft, tags, soft'[a], tags'[a])
  {
    forall a | 0 <= a < |soft'| ensures Tagged(soft, tags, soft'[a], tags'[a]) {
      assert Tagged(soft1, tags1, soft'[a], tags'[a]);
      var k :| 0 <= k < |soft1| && soft1[k] == soft'[a] && tags1[k] == tags'[a];
      var k' := if k == i then |soft| - 1 else k;
      assert soft[k'] == soft'[a] && tags[k'] == tags'[a];
    }
  }

  lemma TaggedOn(soft: seq<seq<Match>>, tags: seq<nat>, soft1: seq<seq<Match>>, tags1: seq<nat>,
                soft': seq<seq<Match>>, tags': seq<nat>, i: nat, pri: int)
    requires |tags| == |soft| && i < |soft| && |tags'| == |soft'| && (soft[i] == [] || soft[i][0].priority <= pri)
    requires soft1 == soft[i := soft[|soft| - 1]][..|soft| - 1] && tags1 == tags[i := tags[|soft| - 1]][..|soft| - 1]
    requires forall b :: 0 <= b < |soft1| && soft1[b] != [] && soft1[b][0].priority > pri ==> Tagged(soft', tags', soft1[b], tags1[b])
    ensures forall b :: 0 <= b < |soft| && soft[b] != [] && soft[b][0].priority > pri ==> Tagged(soft', tags', soft[b], tags[b])
  {
    forall b | 0 <= b < |soft| && soft[b] != [] && soft[b][0].priority > pri ensures Tagged(soft', tags', soft[b], tags[b]) {
      var b' := if b == |soft| - 1 then i else b;
      assert soft1[b'] == soft[b] && tags1[b'] == tags[b];
    }
  }

  /** Deleting dead soft matches leaves the others in place and waiting. */
  lemma DropDeadPlaced(subs: seq<Subtable>, f: Bits, version: nat, acc: Scan, tags: seq<nat>) returns (tags': seq<nat>)
    requires SameSize(subs, f) && SoftInv(subs, f, version, acc) && Placed(subs, f, version, acc.soft, tags)
    ensures
      var soft' := DropDead(acc.soft, 0, HardPriority(acc.hard));
      && Placed(subs, f, version, soft', tags')
      && forall pri :: pri > HardPriority(acc.hard) && Waiting(subs, f, version, acc.soft, tags, pri) ==>
           Waiting(subs, f, version, soft', tags', pri)
  {
    hide DropDead, SubTail, Waiting;
    var soft' := DropDead(acc.soft, 0, HardPriority(acc.hard));
    tags' := DropDeadTags(acc.soft, tags, 0, HardPriority(acc.hard));
    forall a | 0 <= a < |soft'| ensures tags'[a] < |subs| && EndOf(soft'[a], SubTail(subs[tags'[a]], f, version)) {
      assert Tagged(acc.soft, tags, soft'[a], tags'[a]);
    }
    forall pri | pri > HardPriority(acc.hard) && Waiting(subs, f, version, acc.soft, tags, pri)
      ensures Waiting(subs, f, version, soft', tags', pri)
    {
      DropDeadWaiting(subs, f, version, acc, tags, soft', tags', pri);
    }
  }

  lemma DropDeadWaiting(subs: seq<Subtable>, f: Bits, version: nat, acc: Scan, tags: seq<nat>,
                        soft': seq<seq<Match>>, tags': seq<nat>, pri: int)
    requires SameSize(subs, f) && SoftInv(subs, f, version, acc) && |tags| == |acc.soft| && |tags'| == |soft'|
    requires pri > HardPriority(acc.hard) && Waiting(subs, f, version, acc.soft, tags, pri)
    requires forall b :: 0 <= b < |acc.soft| && acc.soft[b] != [] && acc.soft[b][0].priority > HardPriority(acc.hard) ==>
      Tagged(soft', tags', acc.soft[b], tags[b])
    ensures Waiting(subs, f, version, soft', tags', pri)
  {
    hide Hit, HitIn, SubTail;
    forall k, m | 0 <= k < |subs| && HitIn(subs[k], f, version, m) && m.conjs != [] && m.priority == pri
      ensures WaitsAt(soft', tags', k, m)
    {
      assert WaitsAt(acc.soft, tags, k, m);
      var b :| 0 <= b < |acc.soft| && tags[b] == k && m in acc.soft[b];
      assert acc.soft[b] in acc.soft;
      assert SoftHit(subs, f, version, acc.soft[b]);
      BestFirst(acc.soft[b], m);
      assert Tagged(soft', tags', acc.soft[b], tags[b]);
    }
  }

  lemma StepOnePlaced(subs: seq<Subtable>, f: Bits, version: nat, acc: Scan, tags: seq<nat>, i: nat)
    requires SameSize(subs, f) && Placed(subs, f, version, acc.soft, tags)
    requires i < |acc.soft| && acc.soft[i] != []
    ensures Placed(subs, f, version, StepOne(acc, version, i).soft, tags)
  {
    hide SubTail, VisibleFrom, NoRepeats;
    var s, tail := acc.soft[i], SubTail(subs[tags[i]], f, version);
    var next := VisibleFrom(s[1..], version);
    assert EndOf(s, tail);
    assert EndOf(next, tail) by { SuffixOf(s, tail, next); }
  }

  lemma SuffixOf(s: seq<Match>, list: seq<Match>, next: seq<Match>)
    requires s != [] && EndOf(s, list) && |next| < |s| && next == s[1..][|s| - 1 - |next|..]
    ensures EndOf(next, list)
  {
  }

  lemma StepOneWaiting(subs: seq<Subtable>, f: Bits, version: nat, acc: Scan, tags: seq<nat>, i: nat, pri: int)
    requires SameSize(subs, f) && Ordered(subs) && SoftInv(subs, f, version, acc) && |tags| == |acc.soft|
    requires AboveHard(subs, f, version, pri) && Waiting(subs, f, version, acc.soft, tags, pri)
    requires i < |acc.soft| && acc.soft[i] != [] && acc.soft[i][0].priority > pri
    ensures Waiting(subs, f, version, StepOne(acc, version, i).soft, tags, pri)
  {
    hide Hit, HitIn, VisibleFrom, SubTail, Ordered;
    var soft' := StepOne(acc, version, i).soft;
    forall k, m | 0 <= k < |subs| && HitIn(subs[k], f, version, m) && m.conjs != [] && m.priority == pri
      ensures WaitsAt(soft', tags, k, m)
    {
      HitInTail(subs, f, version, k, m);
      assert WaitsAt(acc.soft, tags, k, m);
      var b :| 0 <= b < |acc.soft| && tags[b] == k && m in acc.soft[b];
      if b == i { WaitsBehind(subs, f, version, acc, i, m); }
      assert m in soft'[b];
    }
  }

  /** A rule that waits behind a better one is still there after the step. */
  lemma WaitsBehind(subs: seq<Subtable>, f: Bits, version: nat, acc: Scan, i: nat, m: Match)
    requires SameSize(subs, f) && SoftInv(subs, f, version, acc) && AboveHard(subs, f, version, m.priority)
    requires i < |acc.soft| && m in acc.soft[i] && m.VisibleIn(version) && acc.soft[i][0].priority > m.priority
    ensures m in StepOne(acc, version, i).soft[i]
  {
    hide Hit, VisibleFrom;
    var s := acc.soft[i];
    assert s in acc.soft;
    assert SoftHit(subs, f, version, s);
    NextVisible(subs, f, version, s);
    KeptBehind(s, version, m);
    var next := VisibleFrom(s[1..], version);
    BestFirst(next, m);
    assert next[0] in next;
  }

  lemma {:induction false} FallBackPlaced(subs: seq<Subtable>, f: Bits, version: nat, acc: Scan, tags: seq<nat>, top: int, i: nat)
    requires SameSize(subs, f) && Placed(subs, f, version, acc.soft, tags)
    requires i <= |acc.soft| && forall k :: i <= k < |acc.soft| ==> acc.soft[k] != []
    ensures Placed(subs, f, version, FallBack(acc, version, top, i).soft, tags)
    decreases |acc.soft| - i
  {
    hide Placed;
    if i < |acc.soft| {
      if acc.soft[i][0].priority != top {
        FallBackPlaced(subs, f, version, acc, tags, top, i + 1);
      } else {
        StepOnePlaced(subs, f, version, acc, tags, i);
        FallBackPlaced(subs, f, version, StepOne(acc, version, i), tags, top, i + 1);
      }
    }
  }

  lemma {:induction false} FallBackWaiting(subs: seq<Subtable>, f: Bits, version: nat, acc: Scan, tags: seq<nat>,
                                           top: int, i: nat, pri: int)
    requires SameSize(subs, f) && Ordered(subs) && SoftInv(subs, f, version, acc) && |tags| == |acc.soft|
    requires AboveHard(subs, f, version, pri) && pri < top && Waiting(subs, f, version, acc.soft, tags, pri)
    requires i <= |acc.soft| && forall k :: i <= k < |acc.soft| ==> acc.soft[k] != []
    ensures Waiting(subs, f, version, FallBack(acc, version, top, i).soft, tags, pri)
    decreases |acc.soft| - i
  {
    hide SoftInv, Waiting, AboveHard, Ordered;
    if i < |acc.soft| {
      if acc.soft[i][0].priority != top {
        FallBackWaiting(subs, f, version, acc, tags, top, i + 1, pri);
      } else {
        StepOneInv(subs, f, version, acc, i);
        StepOneWaiting(subs, f, version, acc, tags, i, pri);
        FallBackWaiting(subs, f, version, StepOne(acc, version, i), tags, top, i + 1, pri);
      }
    }
  }

  // ----- counting

  /** The tags of the first `i` soft matches, as far as those have priority `pri`. */
  ghost function TagsAt(soft: seq<seq<Match>>, tags: seq<nat>, pri: int, i: nat): set<nat>
    requires |tags| == |soft| && i <= |soft| && forall k :: 0 <= k < |soft| ==> soft[k] != []
  {
    if i == 0 then {}
    else TagsAt(soft, tags, pri, i - 1) + if soft[i - 1][0].priority == pri then {tags[i - 1]} else {}
  }

  lemma {:induction false} TagsCount(soft: seq<seq<Match>>, tags: seq<nat>, pri: int, i: nat)
    requires |tags| == |soft| && i <= |soft| && NoRepeats(tags) && forall k :: 0 <= k < |soft| ==> soft[k] != []
    ensures |TagsAt(soft, tags, pri, i)| == CountAt(soft[..i], pri)
    ensures forall t :: t in TagsAt(soft, tags, pri, i) <==>
      exists k :: 0 <= k < i && tags[k] == t && soft[k][0].priority == pri
    decreases i
  {
    if i > 0 {
      TagsCount(soft, tags, pri, i - 1);
      assert soft[..i][..i - 1] == soft[..i - 1];
      assert tags[i - 1] !in TagsAt(soft, tags, pri, i - 1);
    }
  }

  /** A round never has more soft matches than there are subtables with a rule of its priority, and when
      no better one is left it has just as many. */
  lemma CountIsCrowd(subs: seq<Subtable>, f: Bits, version: nat, soft: seq<seq<Match>>, tags: seq<nat>, pri: int)
    requires SameSize(subs, f) && Ordered(subs) && Placed(subs, f, version, soft, tags)
    requires forall s :: s in soft ==> SoftHit(subs, f, version, s)
    ensures (forall k :: 0 <= k < |soft| ==> soft[k] != []) && CountAt(soft, pri) <= |Crowd(subs, f, version, pri)|
    ensures Waiting(subs, f, version, soft, tags, pri) && (forall k :: 0 <= k < |soft| ==> soft[k][0].priority <= pri) ==>
      CountAt(soft, pri) == |Crowd(subs, f, version, pri)|
  {
    hide Hit, HitIn, SubTail, CountAt, TagsAt, Ordered;
    forall k | 0 <= k < |soft| ensures soft[k] != [] { assert soft[k] in soft; }
    TagsCount(soft, tags, pri, |soft|);
    assert soft[..|soft|] == soft;
    var at, crowd := TagsAt(soft, tags, pri, |soft|), Crowd(subs, f, version, pri);
    forall t | t in at ensures t in crowd {
      var k :| 0 <= k < |soft| && tags[k] == t && soft[k][0].priority == pri;
      InCrowd(subs, f, version, soft, tags, k);
    }
    Fewer(at, crowd);
    if Waiting(subs, f, version, soft, tags, pri) && forall k :: 0 <= k < |soft| ==> soft[k][0].priority <= pri {
      forall k | k in crowd ensures k in at {
        var m :| HitIn(subs[k], f, version, m) && m.priority == pri && m.conjs != [];
        assert WaitsAt(soft, tags, k, m);
        var i :| 0 <= i < |soft| && tags[i] == k && m in soft[i];
        assert SoftHit(subs, f, version, soft[i]);
        BestFirst(soft[i], m);
      }
      Fewer(crowd, at);
    }
  }

  lemma InCrowd(subs: seq<Subtable>, f: Bits, version: nat, soft: seq<seq<Match>>, tags: seq<nat>, k: nat)
    requires SameSize(subs, f) && Placed(subs, f, version, soft, tags) && k < |soft| && SoftHit(subs, f, version, soft[k])
    ensures tags[k] in Crowd(subs, f, version, soft[k][0].priority)
  {
    hide SubTail, HitIn, Hit;
    var tail := SubTail(subs[tags[k]], f, version);
    assert EndOf(soft[k], tail);
    assert tail[|tail| - |soft[k]|] == soft[k][0];
    TailIsHitIn(subs[tags[k]], f, version, soft[k][0]);
  }

  lemma Fewer<T>(a: set<T>, b: set<T>)
    requires a <= b
    ensures |a| <= |b|
  {
    assert b == a + (b - a);
  }
}
