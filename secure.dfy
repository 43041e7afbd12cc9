/** The operations the dispatch algorithm consumes from the secure-computation
    substrate, stated on the cleartext integers a secret value reveals to.
    Comparisons give 0/1 integers, selection is arithmetic, and AND is a
    product of 0/1 factors, so every decision of the algorithm is an integer
    expression over these few operations. */
module Secure {

  /** A 0/1 integer, the encoding of a secret boolean. */
  predicate IsBit(x: int) { x == 0 || x == 1 }

  predicate IsBits(s: seq<int>) { forall j :: 0 <= j < |s| ==> IsBit(s[j]) }

  /** Secure equality test (mpc.eq): a 0/1 value. */
  function Eq(a: int, b: int): (r: int)
    ensures IsBit(r)
    ensures r == 1 <==> a == b
  {
    if a == b then 1 else 0
  }

  /** Secure greater-or-equal test (mpc.ge): a 0/1 value. */
  function Ge(a: int, b: int): (r: int)
    ensures IsBit(r)
    ensures r == 1 <==> a >= b
  {
    if a >= b then 1 else 0
  }

  /** Oblivious select (mpc.if_else): the substrate computes c * (a - b) + b
      from both branches, which picks a when c is 1 and b when c is 0. The
      body spells out those two cases so that callers reason linearly;
      IfElseIsArithmetic shows it equals c * (a - b) + b for every c. */
  function IfElse(c: int, a: int, b: int): (r: int)
    ensures c == 1 ==> r == a
    ensures c == 0 ==> r == b
  {
    if c == 1 then a else if c == 0 then b else c * (a - b) + b
  }

  lemma IfElseIsArithmetic(c: int, a: int, b: int)
    ensures IfElse(c, a, b) == c * (a - b) + b
  {
  }

  /** Secure inner product (mpc.in_prod) of two vectors of equal length. */
  function Dot(xs: seq<int>, ys: seq<int>): int
    requires |xs| == |ys|
  {
    if |xs| == 0 then 0 else xs[0] * ys[0] + Dot(xs[1..], ys[1..])
  }

  /** A matrix with n rows of n entries each. */
  predicate IsSquare(m: seq<seq<int>>, n: nat) {
    |m| == n && forall i :: 0 <= i < n ==> |m[i]| == n
  }

  /** Product of a matrix with the transpose of the one-row matrix [v]:
      the column whose i-th entry is row i of m dotted with v
      (mpc.matrix_prod(m, [v], tr=True), kept as a vector). */
  function MatVec(m: seq<seq<int>>, v: seq<int>): (r: seq<int>)
    requires forall i :: 0 <= i < |m| ==> |m[i]| == |v|
    ensures |r| == |m|
    ensures forall i :: 0 <= i < |m| ==> r[i] == Dot(m[i], v)
  {
    seq(|m|, i requires 0 <= i < |m| => Dot(m[i], v))
  }

  /** Secure argmin (the index part of mpc.argmin): the index of a minimal
      entry, the lowest such index when several entries are minimal. */
  function ArgMin(xs: seq<int>): (k: nat)
    requires |xs| > 0
    ensures k < |xs|
    ensures forall j :: 0 <= j < |xs| ==> xs[k] <= xs[j]
    ensures forall j :: 0 <= j < k ==> xs[k] < xs[j]
  {
    if |xs| == 1 then 0
    else
      var k := ArgMin(xs[..|xs| - 1]);
      if xs[|xs| - 1] < xs[k] then |xs| - 1 else k
  }
}
