/** The IP header checksum as both DHCP builders compute it (section 3.1 of RFC 791, section 1 of
    RFC 1071): 16-bit words are summed in a uint32_t, carries are folded in, and the complement
    is stored. */
module Checksum {
  import opened Bytes

  type word = w: int | 0 <= w < TWO16

  const M := 0xFFFF

  /** A header short enough for the uint32_t sum. */
  predicate Short(words: seq<word>) {
    |words| <= 0x1_0001
  }

  function Sum(words: seq<word>): nat {
    if words == [] then 0 else Sum(words[..|words| - 1]) + words[|words| - 1]
  }

  lemma {:induction false} SumBound(words: seq<word>)
    ensures Sum(words) <= |words| * M
  {
    if words != [] {
      SumBound(words[..|words| - 1]);
    }
  }

  /** End-around carry until the sum fits 16 bits. */
  function Fold(sum: nat): (r: nat)
    ensures r <= M
  {
    if sum < TWO16 then sum
    else
      assert sum % TWO16 + sum / TWO16 < sum;
      Fold(sum % TWO16 + sum / TWO16)
  }

  /** Folding keeps the residue modulo 2^16 - 1 and is zero only for zero: it is the one
      representative of that residue which ones-complement arithmetic uses. */
  lemma {:induction false} FoldIsResidue(sum: nat)
    ensures Fold(sum) % M == sum % M
    ensures Fold(sum) == 0 <==> sum == 0
    ensures sum != 0 && sum % M == 0 ==> Fold(sum) == M
  {
    if sum >= TWO16 {
      var hi, lo := sum / TWO16, sum % TWO16;
      assert lo + hi < sum;
      FoldIsResidue(lo + hi);
      ResidueStep(hi, lo);
    }
  }

  lemma ResidueStep(hi: nat, lo: nat)
    ensures (TWO16 * hi + lo) % M == (lo + hi) % M
  {
    assert TWO16 * hi + lo == M * hi + (lo + hi);
    AddMultiple(lo + hi, hi);
  }

  lemma {:induction false} AddMultiple(x: nat, k: nat)
    ensures (M * k + x) % M == x % M
  {
    if k > 0 {
      AddMultiple(x, k - 1);
      assert M * k + x == (M * (k - 1) + x) + M;
    }
  }

  /** The loops of dhcp_build_discover and dhcp_build_request, for a header of any length that
      the 32-bit sum can hold: no addition wraps and the folding loop ends. */
  method HeaderChecksum(words: seq<word>) returns (check: word)
    requires Short(words)
    ensures check == M - Fold(Sum(words))
  {
    var sum: nat := 0;
    for i := 0 to |words|
      invariant sum == Sum(words[..i])
    {
      assert words[..i + 1][..i] == words[..i];
      SumBound(words[..i + 1]);
      sum := U32(sum + words[i]);
    }
    assert words[..|words|] == words;
    while sum / TWO16 != 0
      invariant Fold(sum) == Fold(Sum(words))
      decreases sum
    {
      sum := sum % TWO16 + sum / TWO16;
    }
    check := M - sum;
  }

  lemma {:induction false} SumUpdate(words: seq<word>, k: nat, w: word)
    requires k < |words|
    ensures Sum(words[k := w]) == Sum(words) - words[k] + w
  {
    var n := |words| - 1;
    if k == n {
      assert words[k := w][..n] == words[..n];
    } else {
      SumUpdate(words[..n], k, w);
      assert words[k := w][..n] == words[..n][k := w];
    }
  }

  /** What a receiver checks. */
  predicate Verifies(words: seq<word>) {
    Fold(Sum(words)) == M
  }

  /** Storing the checksum in the field that was summed as zero makes any header verify. */
  lemma ChecksumVerifies(words: seq<word>, k: nat)
    requires k < |words| && words[k] == 0
    ensures Verifies(words[k := M - Fold(Sum(words))])
  {
    var sum := Sum(words);
    SumUpdate(words, k, M - Fold(sum));
    FoldIsResidue(sum);
    var total := sum + (M - Fold(sum));
    ComplementCancels(sum, Fold(sum));
    FoldIsResidue(total);
  }

  lemma ComplementCancels(sum: nat, folded: nat)
    requires folded <= M && folded % M == sum % M
    ensures (sum + (M - folded)) % M == 0
  {
    var k := sum / M;
    assert sum == M * k + sum % M;
    if folded == M {
      assert sum % M == 0;
      assert sum + (M - folded) == M * k;
      AddMultiple(0, k);
    } else {
      assert sum + (M - folded) == M * (k + 1);
      AddMultiple(0, k + 1);
    }
  }

  /** The check catches every change to a single word of a valid header except the one that
      ones-complement arithmetic cannot see, between the two representations of zero, and even
      that one when it leaves a header of nothing but zeros. */
  lemma SingleChangeDetected(words: seq<word>, k: nat, w: word)
    requires k < |words| && w != words[k]
    requires Verifies(words)
    ensures Verifies(words[k := w]) <==>
            (w == 0 && words[k] == M && Sum(words) > M) || (w == M && words[k] == 0)
  {
    var total, changed := Sum(words), Sum(words[k := w]);
    SumUpdate(words, k, w);
    FoldIsResidue(total);
    FoldIsResidue(changed);
    ChangeIsMultiple(total, changed, w - words[k]);
  }

  lemma ChangeIsMultiple(a: nat, b: nat, d: int)
    requires a % M == 0 && b == a + d && d != 0 && -M <= d <= M
    ensures b % M == 0 <==> d == M || d == -M
  {
    var k := a / M;
    assert a == M * k;
    if d == M {
      AddMultiple(0, k + 1);
    } else if d == -M {
      AddMultiple(0, k - 1);
    } else {
      NotBothMultiples(a, b, d);
    }
  }

  lemma NotBothMultiples(a: nat, b: nat, d: int)
    requires a % M == 0 && b == a + d && d != 0 && -M < d < M
    ensures b % M != 0
  {
    var k := a / M;
    assert a == M * k;
    if d > 0 {
      AddMultiple(d, k);
    } else {
      assert b == M * (k - 1) + (M + d);
      AddMultiple(M + d, k - 1);
    }
  }
}
