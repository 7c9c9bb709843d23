/** Packet headers, wildcard masks and the hashes the classifier takes of them.  A flow is the bit
    string of `struct flow` in memory order; a word is 64 of its bits. */
module Flows {
  import opened Bits

  const WORD := 64

  // ----- masks

  /** `f` with the bits outside `m` cleared. */
  function And(f: Bits, m: Bits): (r: Bits)
    requires |f| == |m|
    ensures |r| == |f| && forall i :: 0 <= i < |r| ==> r[i] == (f[i] && m[i])
  {
    seq(|f|, i requires 0 <= i < |f| => f[i] && m[i])
  }

  /** `f` and `g` carry the same value in every bit of `m`. */
  predicate Agree(f: Bits, g: Bits, m: Bits) {
    |f| == |g| == |m| && forall i :: 0 <= i < |m| && m[i] ==> f[i] == g[i]
  }

  /** Every bit of `m` is a bit of `n`. */
  predicate Within(m: Bits, n: Bits) {
    |m| == |n| && forall i :: 0 <= i < |m| && m[i] ==> n[i]
  }

  lemma AgreeAnd(f: Bits, g: Bits, m: Bits)
    requires |f| == |g| == |m|
    ensures Agree(f, g, m) <==> And(f, m) == And(g, m)
  {
    if And(f, m) == And(g, m) {
      forall i | 0 <= i < |m| && m[i] ensures f[i] == g[i] {
        assert And(f, m)[i] == And(g, m)[i];
      }
    }
  }

  /** `wc` with the bits of `mask` below bit `hi` added. */
  function Fold(wc: Bits, mask: Bits, hi: nat): (r: Bits)
    requires |wc| == |mask|
    ensures |r| == |wc| && forall i :: 0 <= i < |r| ==> r[i] == (wc[i] || (i < hi && mask[i]))
  {
    seq(|wc|, i requires 0 <= i < |wc| => wc[i] || (i < hi && mask[i]))
  }

  /** `wc` with the bits from `lo` up to `hi` set. */
  function SetBits(wc: Bits, lo: nat, hi: nat): (r: Bits)
    ensures |r| == |wc| && forall i :: 0 <= i < |r| ==> r[i] == (wc[i] || lo <= i < hi)
  {
    seq(|wc|, i requires 0 <= i < |wc| => wc[i] || lo <= i < hi)
  }

  /** The length of a prefix mask, or 0 if the set bits of `m` are not a prefix. */
  function PrefixLength(m: Bits): (len: nat)
    ensures len <= |m|
    ensures len > 0 ==> forall i :: 0 <= i < |m| ==> (m[i] <==> i < len)
  {
    var ones := LeadingOnes(m);
    if exists i :: ones <= i < |m| && m[i] then 0 else ones
  }

  /** Every prefix mask has its length. */
  lemma PrefixLengthOf(m: Bits, n: nat)
    requires n <= |m| && forall i :: 0 <= i < |m| ==> (m[i] <==> i < n)
    ensures PrefixLength(m) == n
  {
    assert n < |m| ==> !m[n];
    assert forall i :: 0 <= i < n ==> m[i];
    assert LeadingOnes(m) == n;
  }

  function LeadingOnes(m: Bits): (len: nat)
    ensures len <= |m|
    ensures forall i :: 0 <= i < len ==> m[i]
    ensures len < |m| ==> !m[len]
  {
    if m == [] || !m[0] then 0 else 1 + LeadingOnes(m[1..])
  }

  /** The number of bits up to and including the last set one: the width less trailing zeros. */
  function SignificantLength(m: Bits): (len: nat)
    ensures len <= |m|
    ensures len > 0 ==> m[len - 1]
    ensures forall i :: len <= i < |m| ==> !m[i]
  {
    if m == [] then 0
    else if m[|m| - 1] then |m|
    else SignificantLength(m[..|m| - 1])
  }

  // ----- hashes

  /** `hash_add64` and `hash_finish`: any functions at all. */
  datatype Hashing = Hashing(add: (nat, Bits) -> nat, finish: (nat, nat) -> nat)

  function Word(f: Bits, w: nat): Bits
    requires WORD * (w + 1) <= |f|
  {
    f[WORD * w..WORD * (w + 1)]
  }

  /** The words that a mask's map has: those with a bit in the mask. */
  predicate InMap(mask: Bits, w: nat)
    requires WORD * (w + 1) <= |mask|
  {
    true in Word(mask, w)
  }

  /** The running hash of the masked words from `lo` up to `hi` that are in the mask's map. */
  function HashWords(h: Hashing, basis: nat, f: Bits, mask: Bits, lo: nat, hi: nat): nat
    requires |f| == |mask| && lo <= hi && WORD * hi <= |f|
    decreases hi - lo
  {
    if lo == hi then basis
    else if InMap(mask, lo) then HashWords(h, h.add(basis, Word(And(f, mask), lo)), f, mask, lo + 1, hi)
    else HashWords(h, basis, f, mask, lo + 1, hi)
  }

  /** The number of words below `hi` in the mask's map. */
  function MapSize(mask: Bits, hi: nat): nat
    requires WORD * hi <= |mask|
  {
    if hi == 0 then 0 else MapSize(mask, hi - 1) + if InMap(mask, hi - 1) then 1 else 0
  }

  /** The hash of everything the mask has below word `hi`: the value an index of that stage holds. */
  function StageHash(h: Hashing, f: Bits, mask: Bits, hi: nat): nat
    requires |f| == |mask| && WORD * hi <= |f|
  {
    h.finish(HashWords(h, 0, f, mask, 0, hi), 8 * MapSize(mask, hi))
  }

  lemma {:induction false} HashWordsSplit(h: Hashing, basis: nat, f: Bits, mask: Bits, lo: nat, mid: nat, hi: nat)
    requires |f| == |mask| && lo <= mid <= hi && WORD * hi <= |f|
    ensures HashWords(h, HashWords(h, basis, f, mask, lo, mid), f, mask, mid, hi)
         == HashWords(h, basis, f, mask, lo, hi)
    decreases mid - lo
  {
    if lo < mid {
      var basis' := if InMap(mask, lo) then h.add(basis, Word(And(f, mask), lo)) else basis;
      HashWordsSplit(h, basis', f, mask, lo + 1, mid, hi);
    }
  }

  /** Flows that agree on the mask below word `hi` have the same hash at that stage, and masking a
      flow first changes nothing. */
  lemma {:induction false} HashWordsAgree(h: Hashing, basis: nat, f: Bits, g: Bits, mask: Bits, lo: nat, hi: nat)
    requires |f| == |g| == |mask| && lo <= hi && WORD * hi <= |f|
    requires forall i :: 0 <= i < WORD * hi && mask[i] ==> f[i] == g[i]
    ensures HashWords(h, basis, f, mask, lo, hi) == HashWords(h, basis, g, mask, lo, hi)
    decreases hi - lo
  {
    if lo < hi {
      assert Word(And(f, mask), lo) == Word(And(g, mask), lo);
      var basis' := if InMap(mask, lo) then h.add(basis, Word(And(f, mask), lo)) else basis;
      HashWordsAgree(h, basis', f, g, mask, lo + 1, hi);
    }
  }

  /** Hashes a flow's masked words of one stage, going on from where the previous stage stopped. */
  method FlowHashRange(h: Hashing, f: Bits, mask: Bits, lo: nat, hi: nat, offset: nat, basis: nat)
    returns (hash: nat, offset': nat, basis': nat)
    requires |f| == |mask| && lo <= hi && WORD * hi <= |f|
    requires offset == MapSize(mask, lo) && basis == HashWords(h, 0, f, mask, 0, lo)
    ensures hash == StageHash(h, f, mask, hi)
    ensures offset' == MapSize(mask, hi) && basis' == HashWords(h, 0, f, mask, 0, hi)
  {
    offset', basis' := offset, basis;
    var w := lo;
    while w < hi
      invariant lo <= w <= hi
      invariant offset' == MapSize(mask, w)
      invariant HashWords(h, basis', f, mask, w, hi) == HashWords(h, basis, f, mask, lo, hi)
    {
      if InMap(mask, w) {
        basis' := h.add(basis', Word(And(f, mask), w));
        offset' := offset' + 1;
      }
      w := w + 1;
    }
    HashWordsSplit(h, 0, f, mask, 0, lo, hi);
    hash := h.finish(basis', 8 * offset');
  }

  /** The packed values of a miniflow: the words in the mask's map from `lo` up to `hi`. */
  function Packed(f: Bits, mask: Bits, lo: nat, hi: nat): seq<Bits>
    requires |f| == |mask| && lo <= hi && WORD * hi <= |f|
    decreases hi - lo
  {
    if lo == hi then []
    else (if InMap(mask, lo) then [Word(f, lo)] else []) + Packed(f, mask, lo + 1, hi)
  }

  /** The running hash of packed values. */
  function HashPacked(h: Hashing, basis: nat, p: seq<Bits>): nat
    decreases |p|
  {
    if p == [] then basis else HashPacked(h, h.add(basis, p[0]), p[1..])
  }

  /** Hashing packed words gives what hashing the words of the flow gives. */
  lemma {:induction false} PackedHash(h: Hashing, basis: nat, f: Bits, mask: Bits, lo: nat, hi: nat)
    requires |f| == |mask| && lo <= hi && WORD * hi <= |f|
    ensures HashPacked(h, basis, Packed(And(f, mask), mask, lo, hi)) == HashWords(h, basis, f, mask, lo, hi)
    decreases hi - lo
  {
    if lo < hi {
      var p := Packed(And(f, mask), mask, lo, hi);
      var rest := Packed(And(f, mask), mask, lo + 1, hi);
      if InMap(mask, lo) {
        PackedHash(h, h.add(basis, Word(And(f, mask), lo)), f, mask, lo + 1, hi);
        assert p[0] == Word(And(f, mask), lo) && p[1..] == rest;
      } else {
        PackedHash(h, basis, f, mask, lo + 1, hi);
        assert p == rest;
      }
    }
  }

  lemma {:induction false} PackedSplit(f: Bits, mask: Bits, lo: nat, mid: nat, hi: nat)
    requires |f| == |mask| && lo <= mid <= hi && WORD * hi <= |f|
    ensures Packed(f, mask, lo, hi) == Packed(f, mask, lo, mid) + Packed(f, mask, mid, hi)
    decreases mid - lo
  {
    if lo < mid {
      PackedSplit(f, mask, lo + 1, mid, hi);
    }
  }

  lemma {:induction false} PackedSize(f: Bits, mask: Bits, hi: nat)
    requires |f| == |mask| && WORD * hi <= |f|
    ensures |Packed(f, mask, 0, hi)| == MapSize(mask, hi)
    decreases hi
  {
    if hi > 0 {
      PackedSize(f, mask, hi - 1);
      PackedSplit(f, mask, 0, hi - 1, hi);
    }
  }

  /** Packing and masking commute. */
  lemma {:induction false} PackedAnd(f: Bits, mask: Bits, lo: nat, hi: nat, k: nat)
    requires |f| == |mask| && lo <= hi && WORD * hi <= |f| && k < |Packed(f, mask, lo, hi)|
    ensures |Packed(mask, mask, lo, hi)| == |Packed(And(f, mask), mask, lo, hi)| == |Packed(f, mask, lo, hi)|
    ensures |Packed(mask, mask, lo, hi)[k]| == |Packed(f, mask, lo, hi)[k]| == WORD
    ensures And(Packed(f, mask, lo, hi)[k], Packed(mask, mask, lo, hi)[k]) == Packed(And(f, mask), mask, lo, hi)[k]
    decreases hi - lo
  {
    if lo < hi {
      assert And(Word(f, lo), Word(mask, lo)) == Word(And(f, mask), lo);
      if !InMap(mask, lo) {
        PackedAnd(f, mask, lo + 1, hi, k);
      } else if k > 0 {
        PackedAnd(f, mask, lo + 1, hi, k - 1);
      } else if 0 < |Packed(f, mask, lo + 1, hi)| {
        PackedAnd(f, mask, lo + 1, hi, 0);
      } else {
        PackedEmpty(f, mask, lo + 1, hi);
      }
    }
  }

  lemma PackedEmpty(f: Bits, mask: Bits, lo: nat, hi: nat)
    requires |f| == |mask| && lo <= hi && WORD * hi <= |f| && Packed(f, mask, lo, hi) == []
    ensures Packed(mask, mask, lo, hi) == [] && Packed(And(f, mask), mask, lo, hi) == []
    decreases hi - lo
  {
    if lo < hi {
      PackedEmpty(f, mask, lo + 1, hi);
    }
  }

  lemma HashOne(h: Hashing, basis: nat, m: seq<Bits>, lo: nat, hi: nat)
    requires lo < hi <= |m|
    ensures HashPacked(h, basis, m[lo..hi]) == HashPacked(h, h.add(basis, m[lo]), m[lo + 1..hi])
  {
    assert m[lo..hi][1..] == m[lo + 1..hi];
  }

  /** Hashes the packed words of a rule for one stage, which covers the words from `lo` up to `hi`
      and so the packed values from `offset` on. */
  method RuleHashRange(h: Hashing, p: seq<Bits>, q: seq<Bits>, n: nat, offset: nat, basis: nat,
                       ghost f: Bits, ghost mask: Bits, ghost lo: nat, ghost hi: nat, ghost words: nat)
    returns (hash: nat, offset': nat, basis': nat)
    requires |f| == |mask| && lo <= hi <= words && WORD * words <= |f|
    requires p == Packed(f, mask, 0, words) && q == Packed(mask, mask, 0, words)
    requires n == MapSize(mask, hi) - MapSize(mask, lo)
    requires offset == MapSize(mask, lo) && basis == HashWords(h, 0, f, mask, 0, lo)
    ensures hash == StageHash(h, f, mask, hi)
    ensures offset' == MapSize(mask, hi) && basis' == HashWords(h, 0, f, mask, 0, hi)
  {
    hide Packed, HashWords, MapSize, And;
    ghost var m := Packed(And(f, mask), mask, 0, words);
    PackedRange(And(f, mask), mask, lo, hi, words);
    PackedRange(f, mask, lo, hi, words);
    basis' := basis;
    var i := 0;
    while i < n
      invariant 0 <= i <= n
      invariant HashPacked(h, basis', m[offset + i..offset + n]) == HashPacked(h, basis, m[offset..offset + n])
    {
      PackedAnd(f, mask, 0, words, offset + i);
      HashOne(h, basis', m, offset + i, offset + n);
      basis' := h.add(basis', And(p[offset + i], q[offset + i]));
      i := i + 1;
    }
    PackedHash(h, basis, f, mask, lo, hi);
    HashWordsSplit(h, 0, f, mask, 0, lo, hi);
    offset' := offset + n;
    hash := h.finish(basis', 8 * offset');
  }

  /** Where the words of a stage lie among the packed values. */
  lemma PackedRange(f: Bits, mask: Bits, lo: nat, hi: nat, words: nat)
    requires |f| == |mask| && lo <= hi <= words && WORD * words <= |f|
    ensures MapSize(mask, lo) <= MapSize(mask, hi) <= |Packed(f, mask, 0, words)|
    ensures Packed(f, mask, 0, words)[MapSize(mask, lo)..MapSize(mask, hi)] == Packed(f, mask, lo, hi)
  {
    PackedSplit(f, mask, 0, lo, words);
    PackedSplit(f, mask, lo, hi, words);
    PackedSplit(f, mask, 0, lo, hi);
    PackedSize(f, mask, lo);
    PackedSize(f, mask, hi);
  }
}
