/**
  Shared vocabulary of the model: optional values, results carrying the
  exceptions the library throws, the stand-in for `Math.random()`, and the
  JavaScript array idioms (`indexOf`, `splice`) the library relies on.
 */
module Base {

  datatype Option<+T> = None | Some(value: T) {
    /** `value ?? default`. */
    function GetOr(default: T): T {
      match this
      case Some(v) => v
      case None => default
    }
  }

  /** The exceptions the library throws, one case per distinct cause. */
  datatype Error =
    | NoSize               // a network built without an input or output size
    | AlreadyProjecting    // Node.connect to a node it already projects to
    | NotMember            // Network.gate with a node outside the network
    | NotGated             // Network.ungate of a connection not in `gates`
    | NodeAbsent           // Network.remove of a node outside the network
    | NoMethod             // mutate called without a method
    | UnknownMethod        // Node.mutate with a method name the table lacks
    | TargetLength         // propagate with a target of the wrong length
    | SizeMismatch         // crossOver/merge of incompatible networks
    | NoInputOutput        // Construct found no input or no output node
    | TooFewLayers         // Perceptron with fewer than three layer sizes
    | GroupSizes           // ONE_TO_ONE between groups of different sizes
    | NoGatingMethod       // Group.gate without a gating method
    | NotDivisible         // attention width not divisible by the head count
    | TokenOutOfVocabulary // a token id at or beyond the vocabulary size
    | Undefined            // a TypeError: a property read on `undefined`
    | Hang                 // a loop that never ends
    | NotANumber           // no exception: the source goes on computing with NaN

  /** Success, or the exception the call throws. */
  datatype Result<+T> = Ok(value: T) | Err(error: Error) {
    predicate IsFailure() {
      Err?
    }

    function PropagateFailure<U>(): Result<U>
      requires Err?
    {
      Err(error)
    }

    function Extract(): T
      requires Ok?
    {
      value
    }
  }

  /** A value of `Math.random()`: a real in [0, 1). */
  type Unit = r: real | 0.0 <= r < 1.0

  /** A source of independent draws, one per position. */
  type Stream = nat -> Unit

  /** `u * d`, kept behind a name so the solver does not rewrite it. */
  function Scale(u: Unit, d: real): real {
    u * d
  }

  lemma ScaleBounds(u: Unit, d: real)
    ensures d > 0.0 ==> 0.0 <= Scale(u, d) < d
    ensures d == 0.0 ==> Scale(u, d) == 0.0
  {
    if d > 0.0 {
      assert d - u * d == (1.0 - u) * d;
      assert (1.0 - u) * d > 0.0;
    }
  }

  /** `Math.floor(u * n)`: a uniformly chosen index below `n`, and 0 when `n` is 0. */
  function Pick(u: Unit, n: nat): (k: nat)
    ensures n > 0 ==> k < n
    ensures n == 0 ==> k == 0
  {
    ScaleBounds(u, n as real);
    Scale(u, n as real).Floor
  }

  /** `Math.random() * (hi - lo) + lo`. */
  function Uniform(u: Unit, lo: real, hi: real): (x: real)
    ensures lo < hi ==> lo <= x < hi
    ensures lo == hi ==> x == lo
  {
    ScaleBounds(u, hi - lo);
    Scale(u, hi - lo) + lo
  }

  /** `Math.floor(u * span + lo)`: a position in [lo, lo + span) for a positive span, `lo` for none. */
  function Slot(u: Unit, lo: int, span: int): (i: int)
    ensures span > 0 ==> lo <= i < lo + span
    ensures span == 0 ==> i == lo
    ensures span < 0 ==> lo + span <= i <= lo
  {
    var v := Scale(u, span as real);
    assert span as real < v <= 0.0 || 0.0 <= v < span as real || v == 0.0 by {
      if span >= 0 {
        ScaleBounds(u, span as real);
      } else {
        ScaleBounds(u, -span as real);
        assert v == -Scale(u, -span as real);
      }
    }
    (v + lo as real).Floor
  }

  /** `s[i]` as JavaScript reads it: `undefined` (None) outside the array. */
  function At<T>(s: seq<T>, i: int): (r: Option<T>)
    ensures r.Some? <==> 0 <= i < |s|
    ensures r.Some? ==> r.value == s[i] && r.value in s
  {
    if 0 <= i < |s| then Some(s[i]) else None
  }

  /** Where `splice(i, 0, x)` inserts: a negative start counts from the end, and both ends clamp. */
  function JsStart(i: int, len: nat): (p: nat)
    ensures p <= len
    ensures 0 <= i <= len ==> p == i
  {
    if i < 0 then (if len + i < 0 then 0 else len + i) else if i > len then len else i
  }

  /** `s.splice(i, 0, x)`. */
  function SpliceIn<T>(s: seq<T>, i: int, x: T): (r: seq<T>)
    ensures |r| == |s| + 1
    ensures r[JsStart(i, |s|)] == x
    ensures forall k | 0 <= k < JsStart(i, |s|) :: r[k] == s[k]
    ensures forall k | JsStart(i, |s|) < k < |r| :: r[k] == s[k - 1]
    ensures forall y | y in r :: y in s || y == x
  {
    var p := JsStart(i, |s|);
    s[..p] + [x] + s[p..]
  }

  /** The remainder of a value below twice the divisor needs at most one subtraction. */
  lemma ModOnce(x: int, len: int)
    requires 0 < len && 0 <= x < 2 * len
    ensures x % len == if x < len then x else x - len
  {
    if x < len {
      assert x / len == 0;
    } else {
      assert x / len == 1;
    }
  }

  /** A suffix is its first element followed by the rest. */
  lemma SuffixCons<T>(s: seq<T>, i: nat)
    requires i < |s|
    ensures s[i..] == [s[i]] + s[i + 1..]
  {
  }

  /**
    The row-major position of pair (i, j) when each row has `len` pairs,
    written as repeated addition so that no proof needs non-linear
    arithmetic; FlatIsProduct relates it to `i * len + j`.
   */
  function Flat(i: nat, j: nat, len: nat): nat {
    if i == 0 then j else len + Flat(i - 1, j, len)
  }

  lemma {:induction false} FlatIsProduct(i: nat, j: nat, len: nat)
    ensures Flat(i, j, len) == i * len + j
  {
    if i > 0 {
      FlatIsProduct(i - 1, j, len);
    }
  }

  lemma {:induction false} FlatBelow(i: nat, j: nat, n: nat, len: nat)
    requires i < n && j < len
    ensures Flat(i, j, len) < Flat(n, 0, len)
  {
    if i > 0 {
      FlatBelow(i - 1, j, n - 1, len);
    }
  }

  function Min(a: nat, b: nat): nat {
    if a <= b then a else b
  }

  /** Whether no element occurs twice. */
  predicate Distinct<T(==)>(s: seq<T>) {
    forall i, j | 0 <= i < j < |s| :: s[i] != s[j]
  }

  /** The first position at or after `i` holding `x`, or -1. */
  function IndexFrom<T(==)>(s: seq<T>, x: T, i: nat): (j: int)
    requires i <= |s|
    ensures j == -1 || i <= j < |s|
    ensures j >= 0 ==> s[j] == x && forall k | i <= k < j :: s[k] != x
    ensures j == -1 ==> forall k | i <= k < |s| :: s[k] != x
    decreases |s| - i
  {
    if i == |s| then -1
    else if s[i] == x then i
    else IndexFrom(s, x, i + 1)
  }

  /** `s.indexOf(x)`: the first position holding `x`, or -1. */
  function IndexOf<T(==)>(s: seq<T>, x: T): (i: int)
    ensures -1 <= i < |s|
    ensures i >= 0 <==> x in s
    ensures i >= 0 ==> s[i] == x && forall k | 0 <= k < i :: s[k] != x
  {
    IndexFrom(s, x, 0)
  }

  /** The sequence without its element at `i`. */
  function RemoveAt<T>(s: seq<T>, i: nat): (r: seq<T>)
    requires i < |s|
    ensures |r| == |s| - 1
    ensures forall k | 0 <= k < i :: r[k] == s[k]
    ensures forall k | i <= k < |r| :: r[k] == s[k + 1]
    ensures forall y | y in r :: y in s
  {
    var r := seq(|s| - 1, k requires 0 <= k < |s| - 1 => if k < i then s[k] else s[k + 1]);
    assert forall k | 0 <= k < |r| :: r[k] in s by {
      forall k | 0 <= k < |r| ensures r[k] in s {
        if k < i { assert r[k] == s[k]; } else { assert r[k] == s[k + 1]; }
      }
    }
    r
  }

  /**
    `s.splice(i, 1)` for an index `i >= -1` as JavaScript does it: a
    position in range loses its element, -1 counts from the end and so
    loses the LAST element, and anything else leaves `s` alone.
   */
  function Splice<T>(s: seq<T>, i: int): (r: seq<T>)
    requires i >= -1
    ensures 0 <= i < |s| ==> r == RemoveAt(s, i)
    ensures i == -1 && |s| > 0 ==> r == RemoveAt(s, |s| - 1)
    ensures (i == -1 && |s| == 0) || i >= |s| ==> r == s
    ensures forall y | y in r :: y in s
  {
    if 0 <= i < |s| then RemoveAt(s, i)
    else if i == -1 && |s| > 0 then RemoveAt(s, |s| - 1)
    else s
  }

  /** `s.splice(s.indexOf(x), 1)`. */
  function SpliceOut<T(==)>(s: seq<T>, x: T): (r: seq<T>)
    ensures x in s ==> r == RemoveAt(s, IndexOf(s, x))
    ensures x !in s && |s| > 0 ==> r == RemoveAt(s, |s| - 1)
    ensures forall y | y in r :: y in s
  {
    Splice(s, IndexOf(s, x))
  }

  /** Removing one occurrence from a duplicate-free sequence removes exactly that value. */
  lemma SpliceOutDistinct<T>(s: seq<T>, x: T)
    requires Distinct(s) && x in s
    ensures Distinct(SpliceOut(s, x))
    ensures forall y :: y in SpliceOut(s, x) <==> y in s && y != x
    ensures |SpliceOut(s, x)| == |s| - 1
  {
    var i := IndexOf(s, x);
    var r := SpliceOut(s, x);
    forall y | y in s && y != x
      ensures y in r
    {
      var j :| 0 <= j < |s| && s[j] == y;
      if j < i { assert r[j] == y; } else { assert j != i; assert r[j - 1] == y; }
    }
  }

  /** JavaScript drops the element at the wrong place when `x` is absent. */
  lemma SpliceOutAbsent<T>(s: seq<T>, x: T)
    requires x !in s && |s| > 0
    ensures SpliceOut(s, x) == RemoveAt(s, |s| - 1)
    ensures |SpliceOut(s, x)| == |s| - 1
  {
  }

  lemma RemoveAtDistinct<T>(s: seq<T>, i: nat)
    requires Distinct(s) && i < |s|
    ensures Distinct(RemoveAt(s, i))
    ensures forall y :: y in RemoveAt(s, i) <==> y in s && y != s[i]
  {
    var r := RemoveAt(s, i);
    forall y | y in s && y != s[i]
      ensures y in r
    {
      var j :| 0 <= j < |s| && s[j] == y;
      if j < i { assert r[j] == y; } else { assert r[j - 1] == y; }
    }
  }
}
