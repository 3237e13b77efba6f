/** Comparison of 256-bit fees held as little-endian bytes. */
module Fees {
  import opened Bytes
  import opened Transactions
  import opened StateKeys

  /** Compare bytes n-1 down to 0; the first difference decides. */
  function ScanDown(left: seq<byte>, right: seq<byte>, n: nat): Ordering
    requires n <= |left| && n <= |right|
  {
    if n == 0 then Equal
    else if left[n - 1] < right[n - 1] then Less
    else if left[n - 1] > right[n - 1] then Greater
    else ScanDown(left, right, n - 1)
  }

  function CompareU256(left: U256, right: U256): Ordering
  {
    ScanDown(left, right, 32)
  }

  method CompareU256Loop(left: U256, right: U256) returns (r: Ordering)
    ensures r == CompareU256(left, right)
  {
    var i := 32;
    while i > 0
      invariant 0 <= i <= 32
      invariant ScanDown(left, right, 32) == ScanDown(left, right, i)
    {
      i := i - 1;
      if left[i] < right[i] {
        return Less;
      }
      if left[i] > right[i] {
        return Greater;
      }
    }
    return Equal;
  }

  predicate GasPriceCovers(actual: U256, required: U256)
  {
    CompareU256(actual, required) != Less
  }

  function NumericOrder(m: nat, n: nat): Ordering
  {
    if m < n then Less else if m > n then Greater else Equal
  }

  lemma {:induction false} UnLeSnoc(s: seq<byte>, n: nat)
    requires n < |s|
    ensures UnLe(s[..n + 1]) == UnLe(s[..n]) + Pow256(n) * s[n]
    decreases n
  {
    if n == 0 {
      assert s[..1][1..] == [] && s[..0] == [];
    } else {
      UnLeSnoc(s[1..], n - 1);
      assert s[..n + 1][1..] == s[1..][..n] && s[..n][1..] == s[1..][..n - 1];
    }
  }

  lemma TopByteDecides(lo: nat, hi: nat, p: nat, a: byte, b: byte)
    requires lo < p && hi < p && a < b
    ensures lo + p * a < hi + p * b
  {
    assert p * (a + 1) <= p * b;
  }

  lemma {:induction false} ScanDownIsNumeric(left: seq<byte>, right: seq<byte>, n: nat)
    requires n <= |left| && n <= |right|
    ensures ScanDown(left, right, n) == NumericOrder(UnLe(left[..n]), UnLe(right[..n]))
  {
    if n > 0 {
      var k := n - 1;
      UnLeSnoc(left, k);
      UnLeSnoc(right, k);
      UnLeBound(left[..k]);
      UnLeBound(right[..k]);
      var lo, hi, p := UnLe(left[..k]), UnLe(right[..k]), Pow256(k);
      if left[k] < right[k] {
        TopByteDecides(lo, hi, p, left[k], right[k]);
      } else if left[k] > right[k] {
        TopByteDecides(hi, lo, p, right[k], left[k]);
      } else {
        ScanDownIsNumeric(left, right, k);
      }
    }
  }

  /** The byte scan decides the order of the numbers, so a fee covers a floor iff it is at least as large. */
  lemma CompareU256IsNumeric(left: U256, right: U256)
    ensures CompareU256(left, right) == NumericOrder(UnLe(left), UnLe(right))
    ensures GasPriceCovers(left, right) <==> UnLe(left) >= UnLe(right)
  {
    ScanDownIsNumeric(left, right, 32);
    assert left[..32] == left && right[..32] == right;
  }
}
