/** The Internet checksum (RFC 1071), and its incremental update (equation 3 of RFC 1624). */
module Checksum {
  import opened Numbers

  type Byte = x: nat | x < 0x100
  type Word = x: nat | x < 0x1_0000
  type DoubleWord = x: nat | x < TWO_32

  /** Two bytes of memory as a 16-bit integer of a big-endian or little-endian machine. */
  function WordOf(b0: Byte, b1: Byte, big: bool): Word {
    if big then b0 * 0x100 + b1 else b0 + b1 * 0x100
  }

  /** The data as 16-bit words; an odd byte at the end is filled up with a zero byte. */
  function Words(data: seq<Byte>, big: bool): seq<Word> {
    if data == [] then []
    else if |data| == 1 then [WordOf(data[0], 0, big)]
    else [WordOf(data[0], data[1], big)] + Words(data[2..], big)
  }

  function Total(ws: seq<Word>): nat {
    if ws == [] then 0 else Total(ws[..|ws| - 1]) + ws[|ws| - 1]
  }

  /** The ones-complement sum: the carries out of 16 bits are added back in. */
  function Fold(p: nat): (r: Word) {
    if p < 0x1_0000 then p else Fold(p % 0x1_0000 + p / 0x1_0000)
  }

  function Complement(w: Word): Word {
    0xffff - w
  }

  /** The checksum of some words. */
  function Csum(ws: seq<Word>): Word {
    Complement(Fold(Total(ws)))
  }

  // ----- the ones-complement sum

  lemma Whole(a: int, q: int)
    ensures (a + 0xffff * q) % 0xffff == a % 0xffff
  {
  }

  /** Folding keeps the residue modulo 65535, and only zero folds to zero. */
  lemma {:induction false} FoldResidue(p: nat)
    ensures Fold(p) % 0xffff == p % 0xffff && (Fold(p) == 0 <==> p == 0)
    decreases p
  {
    if p >= 0x1_0000 {
      var q, r := p / 0x1_0000, p % 0x1_0000;
      FoldResidue(r + q);
      Whole(r + q, q);
    }
  }

  // ----- computing it

  lemma {:induction false} TotalAppend(a: seq<Word>, b: seq<Word>)
    ensures Total(a + b) == Total(a) + Total(b)
    decreases |b|
  {
    if b == [] {
      assert a + b == a;
    } else {
      var n := |b| - 1;
      assert (a + b)[..|a + b| - 1] == a + b[..n];
      TotalAppend(a, b[..n]);
    }
  }

  lemma {:induction false} WordsAppend(data: seq<Byte>, i: nat, big: bool)
    requires 2 * i <= |data|
    ensures Words(data, big) == Words(data[..2 * i], big) + Words(data[2 * i..], big)
    decreases i
  {
    if i == 0 {
      assert data[0..] == data;
    } else {
      WordsAppend(data[2..], i - 1, big);
      assert data[2..][..2 * (i - 1)] == data[..2 * i][2..] && data[2..][2 * (i - 1)..] == data[2 * i..];
    }
  }

  /** Adds the data to a partial checksum, in 32 bits. */
  method CsumContinue(partial: nat, data: seq<Byte>, big: bool) returns (r: nat)
    requires partial < TWO_32
    ensures r == (partial + Total(Words(data, big))) % TWO_32
  {
    hide Words, Total;
    r := partial;
    WordsNone(data, big);
    var i := 0;
    while 2 * i + 1 < |data|
      invariant 2 * i <= |data| && r == (partial + Total(Words(data[..2 * i], big))) % TWO_32
      decreases |data| - i
    {
      var w := WordOf(data[2 * i], data[2 * i + 1], big);
      WordsStep(data, i, big);
      TotalAppend(Words(data[..2 * i], big), [w]);
      TotalOne(w);
      AddModulo(partial + Total(Words(data[..2 * i], big)), w);
      r := (r + w) % TWO_32;
      i := i + 1;
    }
    WordsAppend(data, i, big);
    TotalAppend(Words(data[..2 * i], big), Words(data[2 * i..], big));
    WordsTail(data[2 * i..], big);
    if 2 * i < |data| {
      var w := WordOf(data[2 * i], 0, big);
      TotalOne(w);
      AddModulo(partial + Total(Words(data[..2 * i], big)), w);
      r := (r + w) % TWO_32;
    }
  }

  lemma AddModulo(a: nat, b: nat)
    ensures (a % TWO_32 + b) % TWO_32 == (a + b) % TWO_32
  {
  }

  lemma TotalOne(w: Word)
    ensures Total([w]) == w
  {
  }

  lemma WordsNone(data: seq<Byte>, big: bool)
    ensures Words(data[..0], big) == [] && Total([]) == 0
  {
  }

  lemma WordsTail(data: seq<Byte>, big: bool)
    requires |data| < 2
    ensures Words(data, big) == if data == [] then [] else [WordOf(data[0], 0, big)]
    ensures data == [] ==> Total(Words(data, big)) == 0
  {
  }

  lemma WordsStep(data: seq<Byte>, i: nat, big: bool)
    requires 2 * i + 1 < |data|
    ensures Words(data[..2 * (i + 1)], big) == Words(data[..2 * i], big) + [WordOf(data[2 * i], data[2 * i + 1], big)]
  {
    var d := data[..2 * (i + 1)];
    WordsAppend(d, i, big);
    assert d[..2 * i] == data[..2 * i];
    assert Words(d[2 * i..], big) == [WordOf(data[2 * i], data[2 * i + 1], big)];
  }

  method CsumFinish(partial: nat) returns (r: Word)
    ensures r == Complement(Fold(partial))
  {
    var p := partial;
    while p / 0x1_0000 > 0
      invariant Fold(p) == Fold(partial)
      decreases p
    {
      p := p % 0x1_0000 + p / 0x1_0000;
    }
    r := 0xffff - p;
  }

  const MAX_BYTES := 131074

  lemma {:induction false} TotalBound(ws: seq<Word>)
    ensures Total(ws) <= 0xffff * |ws|
    decreases |ws|
  {
    if ws != [] {
      TotalBound(ws[..|ws| - 1]);
    }
  }

  lemma {:induction false} WordsLength(data: seq<Byte>, big: bool)
    ensures |Words(data, big)| == (|data| + 1) / 2
    decreases |data|
  {
    if |data| > 1 {
      WordsLength(data[2..], big);
    }
  }

  /** The checksum of a buffer, which is that of its words as long as the buffer is short enough for
      the sum to fit in 32 bits. */
  method CsumOf(data: seq<Byte>, big: bool) returns (r: Word)
    ensures r == Complement(Fold(Total(Words(data, big)) % TWO_32))
    ensures |data| <= MAX_BYTES ==> r == Csum(Words(data, big))
  {
    hide Words, Total, Fold;
    var partial := CsumContinue(0, data, big);
    TotalBound(Words(data, big));
    WordsLength(data, big);
    r := CsumFinish(partial);
  }

  // ----- what it tells apart

  /** Two words with the same residue are the same, if both are zero or neither is. */
  lemma SameWord(a: Word, b: Word)
    requires a % 0xffff == b % 0xffff && (a == 0 <==> b == 0)
    ensures a == b
  {
  }

  lemma TotalFront(w: Word, ws: seq<Word>)
    ensures Total([w] + ws) == w + Total(ws)
  {
    TotalAppend([w], ws);
    TotalOne(w);
  }

  /** What a byte counts for in its word. */
  function Place(i: nat, big: bool): nat {
    if (i % 2 == 0) == big then 0x100 else 1
  }

  /** Changing a byte changes the sum by as much as the byte counts for. */
  lemma {:induction false} ByteTotal(data: seq<Byte>, i: nat, b: Byte, big: bool)
    requires i < |data|
    ensures Total(Words(data[i := b], big)) == Total(Words(data, big)) + (b - data[i]) * Place(i, big)
    decreases |data|
  {
    hide Total;
    var data' := data[i := b];
    if |data| == 1 {
      TotalOne(WordOf(data[0], 0, big));
      TotalOne(WordOf(data'[0], 0, big));
    } else {
      TotalFront(WordOf(data[0], data[1], big), Words(data[2..], big));
      TotalFront(WordOf(data'[0], data'[1], big), Words(data'[2..], big));
      if i < 2 {
        assert data'[2..] == data[2..];
      } else {
        assert data'[2..] == data[2..][i - 2 := b];
        ByteTotal(data[2..], i - 2, b, big);
      }
    }
  }

  /** A checksum shows every change of a single byte. */
  lemma ByteShows(data: seq<Byte>, i: nat, b: Byte, big: bool)
    requires i < |data| && b != data[i]
    ensures Csum(Words(data[i := b], big)) != Csum(Words(data, big))
  {
    hide Words, Total, Fold;
    var s, s' := Total(Words(data, big)), Total(Words(data[i := b], big));
    ByteTotal(data, i, b, big);
    FoldResidue(s);
    FoldResidue(s');
    var d := (b - data[i]) * Place(i, big);
    assert d != 0 && -0xffff < d < 0xffff;
    NotSame(s, d);
  }

  lemma NotSame(s: nat, d: int)
    requires d != 0 && -0xffff < d < 0xffff && s + d >= 0
    ensures (s + d) % 0xffff != s % 0xffff
  {
  }

  function Swap(w: Word): Word {
    w % 0x100 * 0x100 + w / 0x100
  }

  lemma SwapParts(hi: Byte, lo: Byte)
    ensures Swap(hi * 0x100 + lo) == lo * 0x100 + hi
  {
    assert (hi * 0x100 + lo) / 0x100 == hi && (hi * 0x100 + lo) % 0x100 == lo;
  }

  lemma SwapResidue(w: Word)
    ensures Swap(w) % 0xffff == TimesByte(w) % 0xffff && (Swap(w) == 0 <==> w == 0)
  {
    hide Swap;
    var hi: Byte, lo: Byte := w / 0x100, w % 0x100;
    SwapParts(hi, lo);
    Whole(Swap(w), hi);
  }

  lemma SwapComplement(w: Word)
    ensures Swap(Complement(w)) == Complement(Swap(w))
  {
    hide Swap;
    var hi: Byte, lo: Byte := w / 0x100, w % 0x100;
    SwapParts(hi, lo);
    SwapParts(0xff - hi, 0xff - lo);
  }

  function TimesByte(n: nat): nat {
    0x100 * n
  }

  /** The words of the other byte order add up to 256 times as much, modulo 65535. */
  lemma {:induction false} OrderTotal(data: seq<Byte>)
    ensures Total(Words(data, false)) % 0xffff == TimesByte(Total(Words(data, true))) % 0xffff
    ensures Total(Words(data, false)) == 0 <==> Total(Words(data, true)) == 0
    decreases |data|
  {
    hide Total, Swap;
    if data == [] {
      WordsTail(data, true);
      WordsTail(data, false);
    } else {
      var b1 := if |data| == 1 then 0 else data[1];
      var rest := if |data| == 1 then [] else data[2..];
      var w := WordOf(data[0], b1, true);
      SwapParts(data[0], b1);
      assert Words(data, true) == [w] + Words(rest, true) && Words(data, false) == [Swap(w)] + Words(rest, false);
      TotalFront(w, Words(rest, true));
      TotalFront(Swap(w), Words(rest, false));
      SwapResidue(w);
      OrderTotal(rest);
      AddResidues(Swap(w), TimesByte(w), Total(Words(rest, false)), TimesByte(Total(Words(rest, true))));
    }
  }

  lemma AddResidues(a: nat, b: nat, c: nat, d: nat)
    requires a % 0xffff == b % 0xffff && c % 0xffff == d % 0xffff
    ensures (a + c) % 0xffff == (b + d) % 0xffff
  {
  }

  /** A machine of the other byte order computes the same two bytes: its checksum is the other with the bytes
      swapped. */
  lemma OrdersSwap(data: seq<Byte>)
    ensures Csum(Words(data, false)) == Swap(Csum(Words(data, true)))
  {
    hide Words, Total, Fold, Swap;
    var s, s' := Total(Words(data, true)), Total(Words(data, false));
    OrderTotal(data);
    FoldResidue(s);
    FoldResidue(s');
    SwapResidue(Fold(s));
    SwapComplement(Fold(s));
    TimesResidue(Fold(s), s);
    SameWord(Swap(Fold(s)), Fold(s'));
  }

  lemma TimesResidue(a: nat, b: nat)
    requires a % 0xffff == b % 0xffff
    ensures TimesByte(a) % 0xffff == TimesByte(b) % 0xffff
  {
    var q := a / 0xffff - b / 0xffff;
    assert a == b + 0xffff * q;
    Whole(0x100 * b, 0x100 * q);
  }

  // ----- updating it

  /** `c` stands for the sum `s`: it is the checksum, or 0 where the checksum of all zeros is 0xffff. */
  predicate StandsFor(c: Word, s: nat) {
    Complement(c) % 0xffff == s % 0xffff && (c == 0xffff ==> s == 0)
  }

  lemma CsumStands(ws: seq<Word>)
    ensures StandsFor(Csum(ws), Total(ws))
  {
    FoldResidue(Total(ws));
  }

  /** A word that stands for a sum is the checksum exactly when it need not be told apart from the
      other form of zero. */
  lemma StandsExact(c: Word, s: nat)
    requires StandsFor(c, s) && c != 0xffff
    ensures c == Complement(Fold(s)) <==> s > 0
  {
    hide Fold;
    FoldResidue(s);
  }

  /** The update for one changed word. */
  function Recalc(c: Word, was: Word, now: Word): Word {
    Complement(Fold(Complement(c) + Complement(was) + now))
  }

  /** The update for several changed words, one after another. */
  function RecalcAll(c: Word, was: seq<Word>, now: seq<Word>): Word
    requires |was| == |now|
  {
    var n := |was| - 1;
    if n < 0 then c else Recalc(RecalcAll(c, was[..n], now[..n]), was[n], now[n])
  }

  lemma RecalcStands(c: Word, was: Word, now: Word, s: nat)
    requires StandsFor(c, s) && was <= s
    ensures
      var r := Recalc(c, was, now);
      StandsFor(r, s - was + now) && r != 0xffff
  {
    hide Fold;
    var sum := Complement(c) + Complement(was) + now;
    FoldResidue(sum);
    var q := s / 0xffff - Complement(c) / 0xffff;
    assert s == Complement(c) + 0xffff * q;
    Whole(s - was + now, 1 - q);
    assert sum > 0;
  }

  lemma {:induction false} TotalUpdate(ws: seq<Word>, i: nat, w: Word)
    requires i < |ws|
    ensures Total(ws[i := w]) == Total(ws) - ws[i] + w && ws[i] <= Total(ws)
    decreases |ws|
  {
    var n := |ws| - 1;
    if i == n {
      assert ws[i := w][..n] == ws[..n];
    } else {
      assert ws[i := w][..n] == ws[..n][i := w];
      TotalUpdate(ws[..n], i, w);
    }
  }

  /** The words with those at the places `at` changed. */
  function Rewrite(ws: seq<Word>, at: seq<nat>, now: seq<Word>): (r: seq<Word>)
    requires |at| == |now| && forall k :: 0 <= k < |at| ==> at[k] < |ws|
    ensures |r| == |ws|
    ensures forall i :: 0 <= i < |ws| && i !in at ==> r[i] == ws[i]
  {
    var n := |at| - 1;
    if n < 0 then ws
    else
      assert at == at[..n] + [at[n]];
      Rewrite(ws, at[..n], now[..n])[at[n] := now[n]]
  }

  predicate Places(ws: seq<Word>, at: seq<nat>) {
    && (forall k :: 0 <= k < |at| ==> at[k] < |ws|)
    && (forall j, k :: 0 <= j < k < |at| ==> at[j] != at[k])
  }

  function WordsAt(ws: seq<Word>, at: seq<nat>): seq<Word>
    requires forall k :: 0 <= k < |at| ==> at[k] < |ws|
  {
    seq(|at|, k requires 0 <= k < |at| => ws[at[k]])
  }

  lemma {:induction false} RecalcAllStands(ws: seq<Word>, at: seq<nat>, now: seq<Word>)
    requires Places(ws, at) && |at| == |now|
    ensures StandsFor(RecalcAll(Csum(ws), WordsAt(ws, at), now), Total(Rewrite(ws, at, now)))
    ensures at != [] ==> RecalcAll(Csum(ws), WordsAt(ws, at), now) != 0xffff
    decreases |at|
  {
    hide Csum, Total, Recalc, StandsFor;
    if at == [] {
      CsumStands(ws);
    } else {
      var n := |at| - 1;
      var ws' := Rewrite(ws, at[..n], now[..n]);
      RecalcAllStands(ws, at[..n], now[..n]);
      assert WordsAt(ws, at)[..n] == WordsAt(ws, at[..n]);
      assert at[n] !in at[..n];
      TotalUpdate(ws', at[n], now[n]);
      RecalcStands(RecalcAll(Csum(ws), WordsAt(ws, at[..n]), now[..n]), ws[at[n]], now[n], Total(ws'));
    }
  }

  /** Updating the checksum for changed words gives the checksum of the changed data if and only if
      those are not all zero: then it gives 0 where the checksum is 0xffff. */
  lemma RecalcExact(ws: seq<Word>, at: seq<nat>, now: seq<Word>)
    requires Places(ws, at) && |at| == |now| > 0
    ensures
      var ws' := Rewrite(ws, at, now);
      var c := RecalcAll(Csum(ws), WordsAt(ws, at), now);
      && c % 0xffff == Csum(ws') % 0xffff
      && (c == Csum(ws') <==> exists i :: 0 <= i < |ws'| && ws'[i] != 0)
      && ((forall i :: 0 <= i < |ws'| ==> ws'[i] == 0) ==> c == 0 && Csum(ws') == 0xffff)
  {
    hide Fold, RecalcAll, Total;
    var ws' := Rewrite(ws, at, now);
    var c := RecalcAll(Csum(ws), WordsAt(ws, at), now);
    RecalcAllStands(ws, at, now);
    StandsExact(c, Total(ws'));
    CsumStands(ws');
    AllZero(ws');
    SameResidue(c, Csum(ws'), Total(ws'));
  }

  lemma SameResidue(c: Word, d: Word, s: nat)
    requires StandsFor(c, s) && StandsFor(d, s)
    ensures c % 0xffff == d % 0xffff
    ensures s == 0 && c != 0xffff ==> c == 0
  {
  }

  lemma {:induction false} AllZero(ws: seq<Word>)
    ensures Total(ws) > 0 <==> exists i :: 0 <= i < |ws| && ws[i] != 0
    ensures Total(ws) == 0 ==> Csum(ws) == 0xffff
    decreases |ws|
  {
    if ws != [] {
      var n := |ws| - 1;
      AllZero(ws[..n]);
      if i :| 0 <= i < |ws| && ws[i] != 0 {
        assert i < n ==> ws[..n][i] != 0;
      }
      if Total(ws[..n]) > 0 {
        var i :| 0 <= i < n && ws[..n][i] != 0;
        assert ws[i] != 0;
      }
    }
  }

  // ----- the functions of the interface

  method Recalc16(c: Word, was: Word, now: Word) returns (r: Word)
    ensures r == RecalcAll(c, [was], [now])
  {
    r := CsumFinish(Complement(c) + Complement(was) + now);
    assert RecalcAll(c, [was][..0], [now][..0]) == c;
  }

  /** The two halves of a 32-bit integer, which are two words of the data. */
  function Halves(x: DoubleWord): seq<Word> {
    [x % 0x1_0000, x / 0x1_0000]
  }

  method Recalc32(c: Word, was: DoubleWord, now: DoubleWord) returns (r: Word)
    ensures r == RecalcAll(c, Halves(was), Halves(now))
  {
    var c1 := Recalc16(c, was % 0x1_0000, now % 0x1_0000);
    r := Recalc16(c1, was / 0x1_0000, now / 0x1_0000);
    RecalcAppend(c, [was % 0x1_0000], [now % 0x1_0000], [was / 0x1_0000], [now / 0x1_0000]);
  }

  lemma {:induction false} RecalcAppend(c: Word, was: seq<Word>, now: seq<Word>, was': seq<Word>, now': seq<Word>)
    requires |was| == |now| && |was'| == |now'|
    ensures RecalcAll(c, was + was', now + now') == RecalcAll(RecalcAll(c, was, now), was', now')
    decreases |was'|
  {
    hide Recalc;
    if was' == [] {
      assert was + was' == was && now + now' == now;
    } else {
      var m, n := |was'| - 1, |was + was'| - 1;
      RecalcAppend(c, was, now, was'[..m], now'[..m]);
      assert (was + was')[..n] == was + was'[..m] && (now + now')[..n] == now + now'[..m];
    }
  }

  method Recalc48(c: Word, was: seq<Word>, now: seq<Word>) returns (r: Word)
    requires |was| == |now| == 3
    ensures r == RecalcAll(c, was, now)
  {
    r := c;
    for i := 0 to 3
      invariant r == RecalcAll(c, was[..i], now[..i])
    {
      r := Recalc16(r, was[i], now[i]);
      RecalcAppend(c, was[..i], now[..i], [was[i]], [now[i]]);
      assert was[..i + 1] == was[..i] + [was[i]] && now[..i + 1] == now[..i] + [now[i]];
    }
    assert was[..3] == was && now[..3] == now;
  }

  /** The halves of several 32-bit integers. */
  function AllHalves(xs: seq<DoubleWord>): (r: seq<Word>)
    ensures |r| == 2 * |xs|
  {
    var n := |xs| - 1;
    if n < 0 then [] else AllHalves(xs[..n]) + Halves(xs[n])
  }

  method Recalc128(c: Word, was: seq<DoubleWord>, now: seq<DoubleWord>) returns (r: Word)
    requires |was| == |now| == 4
    ensures r == RecalcAll(c, AllHalves(was), AllHalves(now))
  {
    hide RecalcAll;
    r := c;
    RecalcNone(c);
    for i := 0 to 4
      invariant r == RecalcAll(c, AllHalves(was[..i]), AllHalves(now[..i]))
    {
      r := Recalc32(r, was[i], now[i]);
      RecalcAppend(c, AllHalves(was[..i]), AllHalves(now[..i]), Halves(was[i]), Halves(now[i]));
      assert was[..i + 1][..i] == was[..i] && now[..i + 1][..i] == now[..i];
    }
    assert was[..4] == was && now[..4] == now;
  }

  lemma RecalcNone(c: Word)
    ensures RecalcAll(c, [], []) == c
  {
  }
}
