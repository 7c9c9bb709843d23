/** Bit strings, most significant bit first, as the classifier's tries and masks read them. */
module Bits {

  type Bits = seq<bool>

  /** `r` is the number of leading bits on which `a` and `b` agree. */
  predicate Agreement(a: Bits, b: Bits, r: nat) {
    && r <= |a| && r <= |b|
    && a[..r] == b[..r]
    && (r < |a| && r < |b| ==> a[r] != b[r])
  }

  lemma {:induction false} AgreementExists(a: Bits, b: Bits, k: nat)
    requires k <= |a| && k <= |b| && a[..k] == b[..k]
    ensures exists r :: Agreement(a, b, r)
    decreases |a| - k
  {
    if k < |a| && k < |b| && a[k] == b[k] {
      assert a[..k + 1] == a[..k] + [a[k]] && b[..k + 1] == b[..k] + [b[k]];
      AgreementExists(a, b, k + 1);
    } else {
      assert Agreement(a, b, k);
    }
  }

  lemma AgreementUnique(a: Bits, b: Bits, r: nat, s: nat)
    requires Agreement(a, b, r) && Agreement(a, b, s)
    ensures r == s
  {
    SameHead(a, b, r);
    SameHead(a, b, s);
  }

  /** The number of leading bits on which `a` and `b` agree. */
  function CommonPrefix(a: Bits, b: Bits): (r: nat)
    ensures Agreement(a, b, r)
  {
    AgreementExists(a, b, 0);
    assert forall r, s :: Agreement(a, b, r) && Agreement(a, b, s) ==> r == s by {
      forall r, s | Agreement(a, b, r) && Agreement(a, b, s) ensures r == s {
        AgreementUnique(a, b, r, s);
      }
    }
    var r :| 0 <= r <= |a| && Agreement(a, b, r);
    r
  }

  /** `CommonPrefix` is the whole of `a` exactly when `b` starts with `a`. */
  lemma CommonPrefixWhole(a: Bits, b: Bits)
    ensures CommonPrefix(a, b) == |a| <==> a <= b
  {
    if CommonPrefix(a, b) == |a| {
      assert a[..|a|] == a;
    }
  }

  /** Strings that share the bits the answer depends on share the answer. */
  lemma CommonPrefixDetermined(a: Bits, b: Bits, c: Bits)
    requires |b| == |c|
    requires
      var r := CommonPrefix(a, b);
      var n := if r < |a| && r < |b| then r + 1 else r;
      b[..n] == c[..n]
    ensures CommonPrefix(a, b) == CommonPrefix(a, c)
  {
    var r := CommonPrefix(a, b);
    var n := if r < |a| && r < |b| then r + 1 else r;
    assert b[..r] == b[..n][..r] == c[..n][..r] == c[..r];
    SameHead(b, c, n);
    AgreementUnique(a, c, r, CommonPrefix(a, c));
  }

  /** Equal prefixes, bit by bit. */
  lemma SameHead(a: Bits, b: Bits, m: nat)
    requires m <= |a| && m <= |b| && a[..m] == b[..m]
    ensures forall i :: 0 <= i < m ==> a[i] == b[i]
  {
    assert forall i :: 0 <= i < m ==> a[i] == a[..m][i] == b[..m][i] == b[i];
  }

  /** A prefix of a prefix. */
  lemma PrefixHead(a: Bits, b: Bits, e: nat)
    requires e <= |a|
    ensures a <= b ==> a[..e] <= b
  {
  }

  lemma SameTail(a: Bits, b: Bits, e: nat, m: nat)
    requires e <= m <= |a| == |b| && a[..m] == b[..m]
    ensures a[..e] == b[..e] && a[e..][..m - e] == b[e..][..m - e]
    ensures e < m ==> a[e] == b[e]
  {
    SameHead(a, b, m);
  }
}
