/** Searches that run beside the writer of a `cmap`, as a machine that makes one access to shared
    memory at each step.  The writer goes through the writes of a trace; a guarded write is four
    stores. */
module Readers {
  import opened Cuckoo
  import opened CuckooTable
  import Displacement
  import opened Wrappers

  /** Where a search is: `c1` and `c2` are the counters it has read, and `k` the slot it looks at. */
  datatype Reader<V> =
    | Start
    | Scan1(c1: nat, k: nat)
    | Node1(c1: nat, k: nat)
    | Check1(c1: nat, found: Option<V>)
    | Second(c1: nat)
    | Scan2(c1: nat, c2: nat, k: nat)
    | Node2(c1: nat, c2: nat, k: nat)
    | Check2(c1: nat, c2: nat, found: Option<V>)
    | Recheck(c1: nat)
    | Done(found: Option<V>)

  /** The writer is at write `pos`, and has made `phase` of the stores of that write. */
  datatype State<V> = State(mem: Table<V>, counters: seq<nat>, pos: nat, phase: nat, reader: Reader<V>)

  /** What the machine runs: the writer's writes and the states of the table they lead through, and
      the hash that the reader searches for. */
  datatype Program<!V> = Program(states: seq<Table<V>>, writes: seq<Write<V>>, homes: Homes, hash: nat) {
    function B1(): nat { homes.first(hash) }
    function B2(): nat { homes.second(hash) }

    ghost predicate Ok() {
      && Trace(states, writes, homes)
      && forall i :: 0 <= i < |states| ==> B1() < |states[i]| && B2() < |states[i]| && |states[i]| == |states[0]|
    }

    /** The hash is in the table all the time. */
    ghost predicate Present()
      requires Ok()
    {
      forall i :: 0 <= i < |states| ==> Find(states[i], homes, hash).Some?
    }
  }

  // ----- the steps

  /** A search starts, wherever the writer is. */
  ghost predicate Init<V>(p: Program<V>, s: State<V>)
    requires p.Ok()
  {
    s.reader == Start && MemoryOk(p, s) && CountersOk(p, s)
  }

  /** The writer's next store. */
  ghost predicate WriterStep<V>(p: Program<V>, s: State<V>, s': State<V>) {
    && s.pos < |p.writes| && In(s.mem, p.writes[s.pos].place) && |s.counters| == |s.mem|
    && var l := p.writes[s.pos].place;
       var bump := s.counters[l.bucket := s.counters[l.bucket] + 1];
       match p.writes[s.pos]
       case Direct(_, v) => s.phase == 0 && s' == s.(mem := Put(s.mem, l, At(s.mem, l).(value := v)), pos := s.pos + 1)
       case Guarded(_, x) =>
         || (s.phase == 0 && s' == s.(counters := bump, phase := 1))
         || (s.phase == 1 && s' == s.(mem := Put(s.mem, l, At(s.mem, l).(value := x.value)), phase := 2))
         || (s.phase == 2 && s' == s.(mem := Put(s.mem, l, At(s.mem, l).(hash := x.hash)), phase := 3))
         || (s.phase == 3 && s' == s.(counters := bump, phase := 0, pos := s.pos + 1))
  }

  /** The reader's next access. */
  function Advance<V>(p: Program<V>, s: State<V>): Reader<V>
    requires p.B1() < |s.mem| == |s.counters| && p.B2() < |s.mem|
  {
    var m1, m2, n1, n2 := s.mem[p.B1()], s.mem[p.B2()], s.counters[p.B1()], s.counters[p.B2()];
    match s.reader
    case Start => if n1 % 2 == 1 then Start else Scan1(n1, 0)
    case Scan1(c1, k) =>
      if k >= |m1| then Check1(c1, None) else if m1[k].hash == p.hash then Node1(c1, k) else Scan1(c1, k + 1)
    case Node1(c1, k) => if k >= |m1| then Start else Check1(c1, m1[k].value)
    case Check1(c1, found) => if n1 != c1 then Start else if found.Some? then Done(found) else Second(c1)
    case Second(c1) => if n2 % 2 == 1 then Second(c1) else Scan2(c1, n2, 0)
    case Scan2(c1, c2, k) =>
      if k >= |m2| then Check2(c1, c2, None) else if m2[k].hash == p.hash then Node2(c1, c2, k) else Scan2(c1, c2, k + 1)
    case Node2(c1, c2, k) => if k >= |m2| then Start else Check2(c1, c2, m2[k].value)
    case Check2(c1, c2, found) => if n2 != c2 then Second(c1) else if found.Some? then Done(found) else Recheck(c1)
    case Recheck(c1) => if n1 != c1 then Start else Done(None)
    case Done(found) => s.reader
  }

  ghost predicate Move<V>(p: Program<V>, s: State<V>, s': State<V>) {
    || WriterStep(p, s, s')
    || (p.B1() < |s.mem| == |s.counters| && p.B2() < |s.mem| && s' == s.(reader := Advance(p, s)))
  }

  // ----- the invariant

  /** The memory is what the trace says, up to the stores of the write in progress. */
  ghost predicate MemoryOk<V>(p: Program<V>, s: State<V>)
    requires p.Ok()
  {
    && s.pos <= |p.writes| && s.phase <= 3 && (s.phase > 0 ==> s.pos < |p.writes| && p.writes[s.pos].Guarded?)
    && |s.mem| == |s.counters| == |p.states[0]|
    && (s.phase <= 1 ==> s.mem == p.states[s.pos])
    && (s.phase > 0 ==>
          var t, w := p.states[s.pos], p.writes[s.pos];
          && In(t, w.place)
          && (s.phase == 2 ==> s.mem == Put(t, w.place, At(t, w.place).(value := w.slot.value)))
          && (s.phase == 3 ==> s.mem == Put(t, w.place, w.slot)))
  }

  /** A counter is odd exactly while a guarded write to its bucket is in progress. */
  ghost predicate CountersOk<V>(p: Program<V>, s: State<V>)
    requires p.Ok() && MemoryOk(p, s)
  {
    forall b :: 0 <= b < |s.counters| ==>
      (s.counters[b] % 2 == 1 <==> s.phase > 0 && p.writes[s.pos].place.bucket == b)
  }

  /** `c` was read from the counter of the bucket: if it is still the same, `fact` holds. */
  predicate While(count: nat, c: nat, fact: bool) {
    c % 2 == 0 && c <= count && (count == c ==> fact)
  }

  /** The value was under the hash in the bucket in one of the states from the `from`-th on. */
  ghost predicate Seen<V>(p: Program<V>, from: nat, s: State<V>, b: nat, v: V)
    requires p.Ok() && MemoryOk(p, s)
  {
    exists i :: from <= i <= s.pos && b < |p.states[i]| && FindIn(p.states[i][b], p.hash) == Some(v)
  }

  /** The hash was not in the table in one of the states from the `from`-th on. */
  ghost predicate WasAbsent<V>(p: Program<V>, from: nat, s: State<V>)
    requires p.Ok() && MemoryOk(p, s)
  {
    exists i :: from <= i <= s.pos && Find(p.states[i], p.homes, p.hash).None?
  }

  /** Nothing is under the hash in the bucket, or the hash was absent at some time. */
  ghost predicate Nothing<V>(p: Program<V>, from: nat, s: State<V>, b: nat)
    requires p.Ok() && MemoryOk(p, s) && b < |s.mem|
  {
    FindIn(s.mem[b], p.hash).None? || WasAbsent(p, from, s)
  }

  ghost predicate Read<V>(p: Program<V>, from: nat, s: State<V>, b: nat, found: Option<V>)
    requires p.Ok() && MemoryOk(p, s) && b < |s.mem|
  {
    match found
    case None => Nothing(p, from, s, b)
    case Some(v) => Seen(p, from, s, b, v)
  }

  /** What a search knows that began when the writer was at write `from`. */
  ghost predicate ReaderOk<V>(p: Program<V>, from: nat, s: State<V>)
    requires p.Ok() && MemoryOk(p, s)
  {
    var m1, m2, n1, n2 := s.mem[p.B1()], s.mem[p.B2()], s.counters[p.B1()], s.counters[p.B2()];
    var none1 := Nothing(p, from, s, p.B1());
    match s.reader
    case Start => true
    case Scan1(c1, k) => While(n1, c1, k <= |m1| && Lacks(m1, p.hash, k))
    case Node1(c1, k) => While(n1, c1, k < |m1| && Lacks(m1, p.hash, k) && m1[k].hash == p.hash)
    case Check1(c1, found) => While(n1, c1, Read(p, from, s, p.B1(), found))
    case Second(c1) => While(n1, c1, none1)
    case Scan2(c1, c2, k) => While(n1, c1, none1) && While(n2, c2, k <= |m2| && Lacks(m2, p.hash, k))
    case Node2(c1, c2, k) =>
      While(n1, c1, none1) && While(n2, c2, k < |m2| && Lacks(m2, p.hash, k) && m2[k].hash == p.hash)
    case Check2(c1, c2, found) => While(n1, c1, none1) && While(n2, c2, Read(p, from, s, p.B2(), found))
    case Recheck(c1) => While(n1, c1, WasAbsent(p, from, s))
    case Done(None) => WasAbsent(p, from, s)
    case Done(Some(v)) => Seen(p, from, s, p.B1(), v) || Seen(p, from, s, p.B2(), v)
  }

  ghost predicate Inv<V>(p: Program<V>, from: nat, s: State<V>)
    requires p.Ok()
  {
    MemoryOk(p, s) && CountersOk(p, s) && from <= s.pos && ReaderOk(p, from, s)
  }

  // ----- the reader's steps keep it

  /** A bucket whose counter is even is as it is in a state of the trace. */
  lemma EvenIsStable<V>(p: Program<V>, s: State<V>, b: nat)
    requires p.Ok() && MemoryOk(p, s) && CountersOk(p, s) && b < |s.mem| && s.counters[b] % 2 == 0
    ensures b < |p.states[s.pos]| && s.mem[b] == p.states[s.pos][b]
  {
    if s.phase > 0 {
      assert Step(p.states, p.writes, p.homes, s.pos);
    }
  }

  lemma ReadsNode<V>(p: Program<V>, from: nat, s: State<V>, b: nat, k: nat)
    requires p.Ok() && MemoryOk(p, s) && CountersOk(p, s) && b < |s.mem| && s.counters[b] % 2 == 0 && from <= s.pos
    requires k < |s.mem[b]| && Lacks(s.mem[b], p.hash, k) && s.mem[b][k].hash == p.hash
    ensures Read(p, from, s, b, s.mem[b][k].value)
  {
    hide FindIn;
    EvenIsStable(p, s, b);
    FindInFirst(s.mem[b], p.hash, k);
  }

  lemma ReadsNothing<V>(b: Bucket<V>, h: int)
    requires Lacks(b, h, |b|)
    ensures FindIn(b, h).None?
  {
    FindInFirst(b, h, |b|);
  }

  /** If nothing is found in either bucket, the hash is not in the table. */
  lemma InNeither<V>(p: Program<V>, from: nat, s: State<V>)
    requires p.Ok() && MemoryOk(p, s) && CountersOk(p, s) && from <= s.pos
    requires s.counters[p.B1()] % 2 == 0 && s.counters[p.B2()] % 2 == 0
    requires Nothing(p, from, s, p.B1()) && Nothing(p, from, s, p.B2())
    ensures WasAbsent(p, from, s)
  {
    hide FindIn;
    EvenIsStable(p, s, p.B1());
    EvenIsStable(p, s, p.B2());
  }

  lemma ReaderKeeps<V>(p: Program<V>, from: nat, s: State<V>)
    requires p.Ok() && Inv(p, from, s)
    ensures Inv(p, from, s.(reader := Advance(p, s)))
  {
    hide FindIn, Find, Step, WasAbsent, Nothing, Seen;
    var s' := s.(reader := Advance(p, s));
    assert MemoryOk(p, s') && CountersOk(p, s');
    var b1, b2, n1, n2 := p.B1(), p.B2(), s.counters[p.B1()], s.counters[p.B2()];
    SeenSame(p, from, s, s', b1);
    SeenSame(p, from, s, s', b2);
    SameNothing(p, from, s, s', b1);
    SameNothing(p, from, s, s', b2);
    match s.reader
    case Scan1(c1, k) =>
      if n1 == c1 && k == |s.mem[b1]| { ScanEnds(p, from, s', b1); }
    case Node1(c1, k) =>
      if n1 == c1 { ReadsNode(p, from, s, b1, k); }
    case Scan2(c1, c2, k) =>
      if n2 == c2 && k == |s.mem[b2]| { ScanEnds(p, from, s', b2); }
    case Node2(c1, c2, k) =>
      if n2 == c2 { ReadsNode(p, from, s, b2, k); }
    case Check2(c1, c2, found) =>
      if n1 == c1 && n2 == c2 && found.None? { InNeither(p, from, s); }
    case _ =>
  }

  lemma ScanEnds<V>(p: Program<V>, from: nat, s: State<V>, b: nat)
    requires p.Ok() && MemoryOk(p, s) && b < |s.mem| && Lacks(s.mem[b], p.hash, |s.mem[b]|)
    ensures Nothing(p, from, s, b)
  {
    ReadsNothing(s.mem[b], p.hash);
  }

  lemma SameNothing<V>(p: Program<V>, from: nat, s: State<V>, s': State<V>, b: nat)
    requires p.Ok() && MemoryOk(p, s) && MemoryOk(p, s') && b < |s.mem| && s' == s.(reader := s'.reader)
    ensures WasAbsent(p, from, s) ==> WasAbsent(p, from, s')
    ensures Nothing(p, from, s, b) ==> Nothing(p, from, s', b)
  {
  }

  /** What was seen stays seen. */
  lemma SeenSame<V>(p: Program<V>, from: nat, s: State<V>, s': State<V>, b: nat)
    requires p.Ok() && MemoryOk(p, s) && MemoryOk(p, s') && s.pos <= s'.pos
    ensures forall v :: Seen(p, from, s, b, v) ==> Seen(p, from, s', b, v)
  {
  }

  // ----- the writer's steps keep it

  lemma MemoryKeeps<V>(p: Program<V>, s: State<V>, s': State<V>)
    requires p.Ok() && MemoryOk(p, s) && WriterStep(p, s, s')
    ensures MemoryOk(p, s') && s.pos <= s'.pos
  {
    assert Step(p.states, p.writes, p.homes, s.pos);
    var t, w := p.states[s.pos], p.writes[s.pos];
    if s.phase == 2 {
      PutTwice(t, w.place, At(t, w.place).(value := w.slot.value), w.slot);
    }
  }

  lemma CountersKeep<V>(p: Program<V>, s: State<V>, s': State<V>)
    requires p.Ok() && MemoryOk(p, s) && CountersOk(p, s) && WriterStep(p, s, s') && MemoryOk(p, s')
    ensures CountersOk(p, s')
    ensures forall b :: 0 <= b < |s.counters| ==> s.counters[b] <= s'.counters[b]
  {
  }

  /** A bucket whose counter stays the same, and even, keeps its hashes; and if nothing was found in it
      under the hash, nothing is, or the hash was absent. */
  lemma BucketKept<V>(p: Program<V>, from: nat, s: State<V>, s': State<V>, b: nat)
    requires p.Ok() && MemoryOk(p, s) && CountersOk(p, s) && WriterStep(p, s, s') && MemoryOk(p, s') && from <= s.pos
    requires b < |s.mem| && p.homes.Has(p.hash, b) && s'.counters[b] == s.counters[b] && s.counters[b] % 2 == 0
    ensures |s'.mem[b]| == |s.mem[b]| && forall k :: 0 <= k < |s.mem[b]| ==> s'.mem[b][k].hash == s.mem[b][k].hash
    ensures Nothing(p, from, s, b) ==> Nothing(p, from, s', b)
  {
    hide FindIn;
    var w := p.writes[s.pos];
    assert Step(p.states, p.writes, p.homes, s.pos);
    AbsentSame(p, from, s, s');
    if w.place.bucket == b && w.Direct? {
      var l := w.place;
      if At(s.mem, l).hash != p.hash {
        Displacement.FindInSame(s.mem[b], s'.mem[b], p.hash);
      } else if Find(p.states[s.pos], p.homes, p.hash).Some? {
        assert At(s.mem, l).value.Some?;
        StoreBehind(s.mem[b], l.slot, w.value, p.hash);
      }
    } else {
      assert s'.mem[b] == s.mem[b];
    }
  }

  lemma AbsentSame<V>(p: Program<V>, from: nat, s: State<V>, s': State<V>)
    requires p.Ok() && MemoryOk(p, s) && MemoryOk(p, s') && s.pos <= s'.pos
    ensures WasAbsent(p, from, s) ==> WasAbsent(p, from, s')
    ensures from <= s.pos && Find(p.states[s.pos], p.homes, p.hash).None? ==> WasAbsent(p, from, s')
  {
  }

  /** A store over a value does not matter to a search that stops before it. */
  lemma {:induction false} StoreBehind<V>(b: Bucket<V>, k: nat, v: Option<V>, h: int)
    requires k < |b| && b[k].value.Some? && b[k].hash == h
    ensures FindIn(b, h).None? ==> FindIn(b[k := Slot(h, v)], h).None?
    decreases k
  {
    if b[0].hash != h {
      StoreBehind(b[1..], k - 1, v, h);
      assert b[k := Slot(h, v)][1..] == b[1..][k - 1 := Slot(h, v)];
    }
  }

  lemma WriterKeeps<V>(p: Program<V>, from: nat, s: State<V>, s': State<V>)
    requires p.Ok() && Inv(p, from, s) && WriterStep(p, s, s')
    ensures Inv(p, from, s')
  {
    hide FindIn, Find, Step, WriterStep, WasAbsent, Nothing;
    MemoryKeeps(p, s, s');
    CountersKeep(p, s, s');
    SameReader(p, s, s');
    AbsentSame(p, from, s, s');
    var b1, b2 := p.B1(), p.B2();
    SeenSame(p, from, s, s', b1);
    SeenSame(p, from, s, s', b2);
    if s'.counters[b1] == s.counters[b1] && s.counters[b1] % 2 == 0 { BucketKept(p, from, s, s', b1); }
    if s'.counters[b2] == s.counters[b2] && s.counters[b2] % 2 == 0 { BucketKept(p, from, s, s', b2); }
  }

  lemma SameReader<V>(p: Program<V>, s: State<V>, s': State<V>)
    requires WriterStep(p, s, s')
    ensures s'.reader == s.reader
  {
  }

  // ----- whole runs

  ghost predicate Run<V>(p: Program<V>, run: seq<State<V>>)
    requires p.Ok()
  {
    && run != [] && Init(p, run[0])
    && forall i :: 0 <= i < |run| - 1 ==> Move(p, run[i], run[i + 1])
  }

  lemma {:induction false} RunKeeps<V>(p: Program<V>, run: seq<State<V>>, i: nat)
    requires p.Ok() && Run(p, run) && i < |run|
    ensures Inv(p, run[0].pos, run[i])
    decreases i
  {
    hide MemoryOk, CountersOk, WriterStep, Step, ReaderOk;
    if i == 0 {
      InitInv(p, run[0]);
    } else {
      RunKeeps(p, run, i - 1);
      assert Move(p, run[i - 1], run[i - 1 + 1]);
      if WriterStep(p, run[i - 1], run[i]) {
        WriterKeeps(p, run[0].pos, run[i - 1], run[i]);
      } else {
        ReaderKeeps(p, run[0].pos, run[i - 1]);
      }
    }
  }

  lemma InitInv<V>(p: Program<V>, s: State<V>)
    requires p.Ok() && Init(p, s)
    ensures Inv(p, s.pos, s)
  {
  }

  /** In every interleaving, a search that comes back with nothing ran beside a state of the table without the
      hash; and what it otherwise comes back with was under the hash in such a state. */
  lemma SearchIsSound<V>(p: Program<V>, run: seq<State<V>>, i: nat)
    requires p.Ok() && Run(p, run) && i < |run| && run[i].reader.Done?
    ensures run[0].pos <= run[i].pos < |p.states|
    ensures run[i].reader.found.None? ==>
      exists j :: run[0].pos <= j <= run[i].pos && Find(p.states[j], p.homes, p.hash).None?
    ensures run[i].reader.found.Some? ==>
      exists j :: run[0].pos <= j <= run[i].pos &&
        (FindIn(p.states[j][p.B1()], p.hash) == run[i].reader.found || FindIn(p.states[j][p.B2()], p.hash) == run[i].reader.found)
  {
    hide FindIn, Find;
    RunKeeps(p, run, i);
  }

  /** In every interleaving, a search for a hash that is in the table all the time never comes back
      with nothing; and what it comes back with was under that hash while it ran. */
  lemma ReaderNeverMisses<V>(p: Program<V>, run: seq<State<V>>, i: nat)
    requires p.Ok() && p.Present() && Run(p, run) && i < |run|
    ensures run[i].reader != Done(None)
    ensures MemoryOk(p, run[i])
    ensures run[i].reader.Done? ==>
      var v := run[i].reader.found.value;
      Seen(p, run[0].pos, run[i], p.B1(), v) || Seen(p, run[0].pos, run[i], p.B2(), v)
  {
    hide FindIn, Find;
    RunKeeps(p, run, i);
  }

  // ----- a search that the writer lets alone

  /** The reader after `n` steps of its own. */
  function Alone<V>(p: Program<V>, s: State<V>, n: nat): (r: State<V>)
    requires p.B1() < |s.mem| == |s.counters| && p.B2() < |s.mem|
    ensures r == s.(reader := r.reader)
    decreases n
  {
    if n == 0 then s else Alone(p, s.(reader := Advance(p, s)), n - 1)
  }

  predicate Quiet<V>(p: Program<V>, s: State<V>) {
    && p.B1() < |s.mem| == |s.counters| && p.B2() < |s.mem|
    && s.counters[p.B1()] % 2 == 0 && s.counters[p.B2()] % 2 == 0
  }

  /** What is left to do of a search none of whose counters is out of date. */
  function Left<V>(p: Program<V>, s: State<V>): nat
    requires Quiet(p, s)
  {
    var w1, w2 := |s.mem[p.B1()]|, |s.mem[p.B2()]|;
    match s.reader
    case Start => w1 + w2 + 9
    case Scan1(c1, k) => (if k < w1 then w1 - k else 0) + w2 + 8
    case Node1(c1, k) => w2 + 7
    case Check1(c1, found) => w2 + 6
    case Second(c1) => w2 + 5
    case Scan2(c1, c2, k) => (if k < w2 then w2 - k else 0) + 4
    case Node2(c1, c2, k) => 3
    case Check2(c1, c2, found) => 2
    case Recheck(c1) => 1
    case Done(found) => 0
  }

  /** What is left to do in all: a counter that is out of date sends the search back once. */
  function Rank<V>(p: Program<V>, s: State<V>): nat
    requires Quiet(p, s)
  {
    var w1, w2, n1, n2 := |s.mem[p.B1()]|, |s.mem[p.B2()]|, s.counters[p.B1()], s.counters[p.B2()];
    var back1, back2 := w1 + w2 + 10, w2 + 10;
    Left(p, s) +
    match s.reader
    case Start => 0
    case Scan1(c1, k) => if c1 != n1 then back1 else 0
    case Node1(c1, k) => if c1 != n1 || k >= w1 then back1 else 0
    case Check1(c1, found) => if c1 != n1 then back1 else 0
    case Second(c1) => if c1 != n1 then back1 else 0
    case Scan2(c1, c2, k) => (if c1 != n1 then back1 else 0) + if c2 != n2 then back2 else 0
    case Node2(c1, c2, k) => (if c1 != n1 || k >= w2 then back1 else 0) + if c2 != n2 then back2 else 0
    case Check2(c1, c2, found) => (if c1 != n1 then back1 else 0) + if c2 != n2 then back2 else 0
    case Recheck(c1) => if c1 != n1 then back1 else 0
    case Done(found) => 0
  }

  lemma RankFalls<V>(p: Program<V>, s: State<V>)
    requires Quiet(p, s) && !s.reader.Done?
    ensures Rank(p, s.(reader := Advance(p, s))) < Rank(p, s)
  {
  }

  /** Wherever it is, a search that the writer lets alone comes back within a number of steps that only the
      size of the two buckets limits. */
  lemma SearchReturns<V>(p: Program<V>, s: State<V>)
    requires Quiet(p, s)
    ensures Alone(p, s, 2 * |s.mem[p.B1()]| + 3 * |s.mem[p.B2()]| + 30).reader.Done?
  {
    hide Rank;
    RankBounded(p, s);
    SearchEnds(p, s, 2 * |s.mem[p.B1()]| + 3 * |s.mem[p.B2()]| + 30);
  }

  lemma {:induction false} SearchEnds<V>(p: Program<V>, s: State<V>, n: nat)
    requires Quiet(p, s) && n >= Rank(p, s)
    ensures Alone(p, s, n).reader.Done?
    decreases n
  {
    hide Rank;
    RankBounded(p, s);
    if s.reader.Done? {
      if n > 0 { SearchEnds(p, s, n - 1); }
    } else {
      RankFalls(p, s);
      SearchEnds(p, s.(reader := Advance(p, s)), n - 1);
    }
  }

  lemma RankBounded<V>(p: Program<V>, s: State<V>)
    requires Quiet(p, s)
    ensures Rank(p, s) <= 2 * |s.mem[p.B1()]| + 3 * |s.mem[p.B2()]| + 30
    ensures s.reader.Start? ==> Rank(p, s) == |s.mem[p.B1()]| + |s.mem[p.B2()]| + 9
    ensures s.reader.Done? ==> Rank(p, s) == 0
  {
  }

  /** What a search has found that began in this state of the memory. */
  ghost predicate OnTrack<V>(p: Program<V>, s: State<V>)
    requires Quiet(p, s)
  {
    var m1, m2, n1, n2 := s.mem[p.B1()], s.mem[p.B2()], s.counters[p.B1()], s.counters[p.B2()];
    var none1 := FindIn(m1, p.hash).None?;
    match s.reader
    case Start => true
    case Scan1(c1, k) => c1 == n1 && k <= |m1| && Lacks(m1, p.hash, k)
    case Node1(c1, k) => c1 == n1 && k < |m1| && Lacks(m1, p.hash, k) && m1[k].hash == p.hash
    case Check1(c1, found) => c1 == n1 && found == FindIn(m1, p.hash)
    case Second(c1) => c1 == n1 && none1
    case Scan2(c1, c2, k) => c1 == n1 && none1 && c2 == n2 && k <= |m2| && Lacks(m2, p.hash, k)
    case Node2(c1, c2, k) => c1 == n1 && none1 && c2 == n2 && k < |m2| && Lacks(m2, p.hash, k) && m2[k].hash == p.hash
    case Check2(c1, c2, found) => c1 == n1 && none1 && c2 == n2 && found == FindIn(m2, p.hash)
    case Recheck(c1) => c1 == n1 && none1 && FindIn(m2, p.hash).None?
    case Done(found) => found == Find(s.mem, p.homes, p.hash)
  }

  lemma StaysOnTrack<V>(p: Program<V>, s: State<V>)
    requires Quiet(p, s) && OnTrack(p, s)
    ensures OnTrack(p, s.(reader := Advance(p, s)))
  {
    hide FindIn;
    var m1, m2 := s.mem[p.B1()], s.mem[p.B2()];
    match s.reader
    case Scan1(c1, k) =>
      if k == |m1| { ReadsNothing(m1, p.hash); }
    case Node1(c1, k) =>
      FindInFirst(m1, p.hash, k);
    case Scan2(c1, c2, k) =>
      if k == |m2| { ReadsNothing(m2, p.hash); }
    case Node2(c1, c2, k) =>
      FindInFirst(m2, p.hash, k);
    case _ =>
  }

  lemma {:induction false} AloneOnTrack<V>(p: Program<V>, s: State<V>, n: nat)
    requires Quiet(p, s) && OnTrack(p, s)
    ensures OnTrack(p, Alone(p, s, n))
    decreases n
  {
    hide OnTrack;
    if n > 0 {
      StaysOnTrack(p, s);
      AloneOnTrack(p, s.(reader := Advance(p, s)), n - 1);
    }
  }

  /** A search that the writer lets alone comes back with exactly what the table has under the hash, and with
      nothing if it has nothing, after as many steps as the two buckets have slots and nine more. */
  lemma SearchAlone<V>(p: Program<V>, s: State<V>)
    requires Quiet(p, s) && s.reader.Start?
    ensures Alone(p, s, |s.mem[p.B1()]| + |s.mem[p.B2()]| + 9).reader == Done(Find(s.mem, p.homes, p.hash))
  {
    hide Find, Rank;
    var n := |s.mem[p.B1()]| + |s.mem[p.B2()]| + 9;
    RankBounded(p, s);
    SearchEnds(p, s, n);
    AloneOnTrack(p, s, n);
  }

  // ----- what the writer's operations guarantee

  lemma {:induction false} SameSize<V>(states: seq<Table<V>>, writes: seq<Write<V>>, homes: Homes, i: nat, j: nat)
    requires Trace(states, writes, homes) && i <= j < |states|
    ensures |states[i]| == |states[j]|
    decreases j - i
  {
    if i < j {
      SameSize(states, writes, homes, i, j - 1);
      assert Step(states, writes, homes, j - 1);
    }
  }

  /** A search that runs beside an operation that goes quietly from `view` to `view'` never misses a
      hash that is in both: the states from the `from`-th on make such a program. */
  lemma OperationIsSafe<V>(states: seq<Table<V>>, writes: seq<Write<V>>, homes: Homes, from: nat,
                           view: map<int, V>, view': map<int, V>, hash: nat)
    requires Trace(states, writes, homes) && from < |states|
    requires homes.first(hash) < |states[from]| && homes.second(hash) < |states[from]|
    requires Displacement.Shows(states[from], homes, view) && Displacement.Shows(states[|states| - 1], homes, view')
    requires Quietly(states[..from + 1], states, homes, view) && hash in view && hash in view'
    ensures
      var p := Program(states[from..], writes[from..], homes, hash);
      p.Ok() && p.Present()
  {
    hide Find;
    var p := Program(states[from..], writes[from..], homes, hash);
    forall i | 0 <= i < |p.writes| ensures Step(p.states, p.writes, homes, i) {
      assert Step(states, writes, homes, from + i);
    }
    forall i | 0 <= i < |p.states|
      ensures |p.states[i]| == |states[from]| && Find(p.states[i], homes, hash).Some?
    {
      SameSize(states, writes, homes, from, from + i);
      assert p.states[i] == states[from + i];
      assert Displacement.Shows(states[from + i], homes, if from + i == |states| - 1 then view' else view);
    }
  }

  /** No search beside the writer ever comes back with nothing. */
  ghost predicate NeverMissed<V(!new)>(p: Program<V>) {
    p.Ok() && forall run: seq<State<V>>, i :: Run(p, run) && 0 <= i < |run| ==> run[i].reader != Done(None)
  }

  /** The writes since the table had gone through `from` states, beside a search for `hash`. */
  ghost function Since<V>(impl: Impl<V>, from: nat, hash: nat): Program<V>
    requires impl.Valid() && 0 < from <= |impl.states|
    reads impl
  {
    Program(impl.states[from - 1..], impl.writes[from - 1..], impl.homes, hash)
  }

  /** An operation of the table that is quiet about its `view` until it is done: no search misses what is there
      before and after it. */
  lemma NothingMissed<V(!new)>(impl: Impl<V>, was: seq<Table<V>>, view: map<int, V>)
    requires impl.Valid() && was != [] && Quietly(was, impl.states, impl.homes, view)
    requires Displacement.Shows(was[|was| - 1], impl.homes, view)
    ensures forall hash: nat :: hash in view && hash in impl.Contents() ==> NeverMissed(Since(impl, |was|, hash))
  {
    hide Displacement.Shows, Run, Find;
    var n := |was|;
    Displacement.StoredShows(impl.buckets, impl.homes, impl.at);
    SameSize(impl.states, impl.writes, impl.homes, n - 1, |impl.states| - 1);
    assert impl.states[..n - 1 + 1] == was;
    forall hash: nat | hash in view && hash in impl.Contents() ensures NeverMissed(Since(impl, n, hash)) {
      var p := Since(impl, n, hash);
      OperationIsSafe(impl.states, impl.writes, impl.homes, n - 1, view, impl.Contents(), hash);
      forall run: seq<State<V>>, i | Run(p, run) && 0 <= i < |run| ensures run[i].reader != Done(None) {
        ReaderNeverMisses(p, run, i);
      }
    }
  }
}
