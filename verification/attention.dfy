/**
  The two integer pieces of multi-head attention: the head-width check of
  the constructor and the causal mask a decoder uses so that a position
  attends only to itself and earlier positions. The attention arithmetic
  itself (scores, softmax, projections) is numeric and not modelled.
 */
module Attention {
  import opened Base

  /** The shape fixed by the constructor: the model width and the per-head key and value widths. */
  datatype Heads = Heads(dModel: nat, numHeads: nat, dK: nat, dV: nat)

  /**
    `new MultiHeadAttention(dModel, numHeads)`: the model width must split
    evenly over the heads. Zero heads is refused as well, because the
    remainder by zero is NaN in JavaScript and so differs from 0.
   */
  function NewHeads(dModel: nat, numHeads: nat): (r: Result<Heads>)
    ensures r.Err? <==> numHeads == 0 || dModel % numHeads != 0
    ensures r.Err? ==> r.error == NotDivisible
    ensures r.Ok? ==>
      && r.value.dModel == dModel && r.value.numHeads == numHeads
      && r.value.dK == r.value.dV
      && r.value.dK * numHeads == dModel
  {
    if numHeads == 0 || dModel % numHeads != 0 then Err(NotDivisible)
    else Ok(Heads(dModel, numHeads, dModel / numHeads, dModel / numHeads))
  }

  /** The number of ones in a mask row. */
  function Ones(row: seq<nat>): nat {
    if row == [] then 0 else (if row[0] == 1 then 1 else 0) + Ones(row[1..])
  }

  lemma {:induction false} OnesAppend(a: seq<nat>, b: seq<nat>)
    ensures Ones(a + b) == Ones(a) + Ones(b)
    decreases |a|
  {
    if a == [] {
      assert a + b == b;
    } else {
      assert (a + b)[1..] == a[1..] + b;
      OnesAppend(a[1..], b);
    }
  }

  /** Whether `m` is the n×n lower-triangular mask: 1 where j ≤ i and 0 elsewhere. */
  predicate IsCausal(m: seq<seq<nat>>, n: nat) {
    && |m| == n
    && (forall i | 0 <= i < n :: |m[i]| == n)
    && (forall i, j | 0 <= i < n && 0 <= j < n :: m[i][j] == (if j <= i then 1 else 0))
  }

  /** `MultiHeadAttention.createCausalMask(seqLen)`, built row by row and entry by entry. */
  method CausalMask(n: nat) returns (mask: seq<seq<nat>>)
    ensures IsCausal(mask, n)
  {
    mask := [];
    var i := 0;
    while i < n
      invariant 0 <= i <= n
      invariant |mask| == i
      invariant forall a | 0 <= a < i :: |mask[a]| == n
      invariant forall a, j | 0 <= a < i && 0 <= j < n :: mask[a][j] == (if j <= a then 1 else 0)
    {
      var row: seq<nat> := [];
      var j := 0;
      while j < n
        invariant 0 <= j <= n
        invariant |row| == j
        invariant forall k | 0 <= k < j :: row[k] == (if k <= i then 1 else 0)
      {
        row := row + [if j <= i then 1 else 0];
        j := j + 1;
      }
      mask := mask + [row];
      i := i + 1;
    }
  }

  /** Row i of a causal mask holds exactly i + 1 ones: position i sees itself and everything before it. */
  lemma CausalRowOnes(m: seq<seq<nat>>, n: nat, i: nat)
    requires IsCausal(m, n) && i < n
    ensures Ones(m[i]) == i + 1
  {
    var row := m[i];
    assert row == row[..i + 1] + row[i + 1..];
    OnesAppend(row[..i + 1], row[i + 1..]);
    AllOnes(row[..i + 1]);
    NoOnes(row[i + 1..]);
  }

  lemma {:induction false} AllOnes(s: seq<nat>)
    requires forall k | 0 <= k < |s| :: s[k] == 1
    ensures Ones(s) == |s|
    decreases |s|
  {
    if s != [] {
      AllOnes(s[1..]);
    }
  }

  lemma {:induction false} NoOnes(s: seq<nat>)
    requires forall k | 0 <= k < |s| :: s[k] == 0
    ensures Ones(s) == 0
    decreases |s|
  {
    if s != [] {
      NoOnes(s[1..]);
    }
  }

  /** The diagonal is all ones and so is the last row. */
  lemma CausalDiagonal(m: seq<seq<nat>>, n: nat)
    requires IsCausal(m, n)
    ensures forall i | 0 <= i < n :: m[i][i] == 1
    ensures n > 0 ==> Ones(m[n - 1]) == n
  {
    if n > 0 {
      CausalRowOnes(m, n, n - 1);
    }
  }
}
