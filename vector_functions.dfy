/** Oblivious vector primitives over 0/1 secret values: a boolean OR that
    stays in {0,1}, the one-hot vector of a secret index, and the mask that
    keeps only the first non-zero entry of a vector. */
module VectorFunctions {
  import opened Secure

  /** OR of two 0/1 values written as 1 - (1 - a)(1 - b), so that 1 OR 1 is 1
      rather than the 3 of the substrate's own OR. The body spells out the
      cases a = 0 and a = 1; RealOrIsNand shows it equals 1 - (1 - a)(1 - b)
      for all integers. */
  function RealOr(a: int, b: int): (r: int)
    ensures IsBit(a) && IsBit(b) ==> IsBit(r) && (r == 0 <==> a == 0 && b == 0)
    ensures a == 0 ==> r == b
    ensures a == 1 ==> r == 1
  {
    if a == 0 then b else if a == 1 then 1 else 1 - (1 - a) * (1 - b)
  }

  lemma RealOrIsNand(a: int, b: int)
    ensures RealOr(a, b) == 1 - (1 - a) * (1 - b)
  {
  }

  predicate AllZero(s: seq<int>) { forall j :: 0 <= j < |s| ==> s[j] == 0 }

  /** v is the one-hot vector of index: 1 at index, 0 everywhere else
      (all zeros when index is not a position of v). */
  predicate IsIndicator(v: seq<int>, index: int) {
    forall j :: 0 <= j < |v| ==> v[j] == (if j == index then 1 else 0)
  }

  /** The running flag of the first-non-zero scan after it has read s:
      the secure OR of all entries of s, folded from the left. */
  function OrPrefix(s: seq<int>): int {
    if |s| == 0 then 0 else RealOr(OrPrefix(s[..|s| - 1]), s[|s| - 1])
  }

  /** Loop invariant of the scan: on a 0/1 vector the running flag is 0 until
      a 1 has been read and 1 from then on. */
  lemma {:induction false} OrPrefixOfBits(s: seq<int>)
    requires IsBits(s)
    ensures OrPrefix(s) == (if AllZero(s) then 0 else 1)
  {
    if |s| > 0 {
      var front := s[..|s| - 1];
      assert IsBits(front);
      OrPrefixOfBits(front);
      assert AllZero(s) <==> AllZero(front) && s[|s| - 1] == 0;
    }
  }

  /** Reference definition of the first-non-zero mask: 1 at the lowest index
      holding a non-zero entry, 0 everywhere else. */
  ghost function FirstNonZeroMask(s: seq<int>): seq<int> {
    seq(|s|, j requires 0 <= j < |s| => if s[j] != 0 && AllZero(s[..j]) then 1 else 0)
  }

  /** The one-hot vector of length entries for a secret index, built by
      comparing every position with the index and selecting 1 on equality. */
  method ComputeIndicatorVector(length: nat, index: int) returns (v: seq<int>)
    ensures |v| == length
    ensures IsIndicator(v, index)
    ensures 0 <= index < length ==> v[index] == 1
    ensures !(0 <= index < length) ==> AllZero(v)
  {
    var indicatorVector := new int[length](_ => 0);
    var valid := 1;
    for j := 0 to length
      invariant forall k :: 0 <= k < j ==> indicatorVector[k] == (if k == index then 1 else 0)
      invariant forall k :: j <= k < length ==> indicatorVector[k] == 0
    {
      indicatorVector[j] := IfElse(Eq(j, index), valid, indicatorVector[j]);
    }
    v := indicatorVector[..];
  }

  /** The left-to-right oblivious scan: entry j of the result is
      s[j] * (1 - alreadySet), where alreadySet is the OR of s[..j]. For a 0/1
      input this is exactly the first-non-zero mask. The source reads s[0], so
      the input must not be empty. */
  method FindFirstNonZero(s: seq<int>) returns (r: seq<int>)
    requires |s| > 0
    ensures |r| == |s|
    ensures forall j :: 0 <= j < |s| ==> r[j] == s[j] * (1 - OrPrefix(s[..j]))
    ensures IsBits(s) ==> r == FirstNonZeroMask(s)
  {
    var firstNonZeroList := new int[|s|](_ => 0);
    var alreadySet := 0;
    for j := 0 to |s|
      invariant alreadySet == OrPrefix(s[..j])
      invariant forall k :: 0 <= k < j ==> firstNonZeroList[k] == s[k] * (1 - OrPrefix(s[..k]))
    {
      firstNonZeroList[j] := s[j] * (1 - alreadySet);
      alreadySet := RealOr(alreadySet, s[j]);
      assert s[..j + 1][..j] == s[..j];
    }
    r := firstNonZeroList[..];
    if IsBits(s) {
      ScanIsFirstNonZeroMask(s, r);
    }
  }

  /** On a 0/1 input the arithmetic of the scan computes the mask. */
  lemma ScanIsFirstNonZeroMask(s: seq<int>, r: seq<int>)
    requires IsBits(s) && |r| == |s|
    requires forall j :: 0 <= j < |s| ==> r[j] == s[j] * (1 - OrPrefix(s[..j]))
    ensures r == FirstNonZeroMask(s)
  {
    forall j | 0 <= j < |s|
      ensures r[j] == FirstNonZeroMask(s)[j]
    {
      assert IsBits(s[..j]);
      OrPrefixOfBits(s[..j]);
    }
  }

  /** A non-zero vector has a lowest non-zero entry. */
  lemma {:induction false} LowestNonZero(s: seq<int>) returns (k: nat)
    requires !AllZero(s)
    ensures k < |s| && s[k] != 0 && AllZero(s[..k])
  {
    if s[0] != 0 {
      k := 0;
    } else {
      assert !AllZero(s[1..]) by {
        var j :| 0 <= j < |s| && s[j] != 0;
        assert s[1..][j - 1] == s[j];
      }
      var k' := LowestNonZero(s[1..]);
      k := k' + 1;
      assert s[..k] == [s[0]] + s[1..][..k'];
    }
  }

  /** The mask of a vector whose first non-zero entry is at k is the one-hot
      vector of k. */
  lemma FirstNonZeroMaskAt(s: seq<int>, k: nat)
    requires k < |s| && s[k] != 0 && AllZero(s[..k])
    ensures |FirstNonZeroMask(s)| == |s|
    ensures IsIndicator(FirstNonZeroMask(s), k)
  {
    var m := FirstNonZeroMask(s);
    forall j | 0 <= j < |s|
      ensures m[j] == (if j == k then 1 else 0)
    {
      if j < k {
        assert s[..k][j] == s[j];
      } else if j > k {
        assert s[..j][k] == s[k];
      }
    }
  }

  /** The mask holds at most one 1, and only 0/1 entries. */
  lemma FirstNonZeroMaskAtMostOne(s: seq<int>)
    ensures IsBits(FirstNonZeroMask(s))
    ensures forall i, j :: 0 <= i < j < |s| ==> FirstNonZeroMask(s)[i] == 0 || FirstNonZeroMask(s)[j] == 0
  {
    var m := FirstNonZeroMask(s);
    forall i, j | 0 <= i < j < |s|
      ensures m[i] == 0 || m[j] == 0
    {
      if m[j] == 1 {
        assert s[..j][i] == s[i];
      }
    }
  }

  /** The mask is all zeros exactly when its input is. */
  lemma FirstNonZeroMaskZeroIff(s: seq<int>)
    ensures AllZero(FirstNonZeroMask(s)) <==> AllZero(s)
  {
    if !AllZero(s) {
      var k := LowestNonZero(s);
      FirstNonZeroMaskAt(s, k);
      assert FirstNonZeroMask(s)[k] == 1;
    }
  }

  /** Inner product with a one-hot vector reads one entry: the dot product of
      xs with the indicator of k is xs[k], or 0 when k is out of range. */
  lemma {:induction false} DotIndicator(xs: seq<int>, v: seq<int>, k: int)
    requires |xs| == |v| && IsIndicator(v, k)
    ensures Dot(xs, v) == (if 0 <= k < |xs| then xs[k] else 0)
    ensures Dot(v, xs) == Dot(xs, v)
  {
    if |xs| > 0 {
      assert IsIndicator(v[1..], k - 1);
      DotIndicator(xs[1..], v[1..], k - 1);
      assert v[0] == (if k == 0 then 1 else 0);
    }
  }

  /** The table lookup of the repositioning step: with one-hot vectors for a
      row p and a column q of a square matrix, pos . (m . target) is m[p][q]
      (0 when either index selects nothing). */
  lemma LookupByIndicators(m: seq<seq<int>>, n: nat, pos: seq<int>, p: int, target: seq<int>, q: int)
    requires IsSquare(m, n) && |pos| == n && |target| == n
    requires IsIndicator(pos, p) && IsIndicator(target, q)
    ensures Dot(pos, MatVec(m, target)) == (if 0 <= p < n && 0 <= q < n then m[p][q] else 0)
  {
    var col := MatVec(m, target);
    var expected := seq(n, i requires 0 <= i < n => if 0 <= q < n then m[i][q] else 0);
    forall i | 0 <= i < n
      ensures col[i] == expected[i]
    {
      DotIndicator(m[i], target, q);
    }
    assert col == expected;
    DotIndicator(col, pos, p);
  }
}
