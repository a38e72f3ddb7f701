/**
  The gene bookkeeping of `Network.crossOver`: every connection of a
  parent becomes a gene record keyed by the innovation id of its end
  positions, the two parents' gene dictionaries are aligned key by key,
  and the genes kept are laid down in the offspring when both ends fall
  inside it.

  A JavaScript object enumerates its array-index keys (integers below
  2^32 − 1) in ascending order and every other key after them in
  insertion order. The model walks all integer keys by value and treats
  the one other key a gene can have ("NaN") as the last one, which is the
  source's order whenever every key is below 2^32 − 1, that is, whenever
  the two end positions of every connection sum to less than 92,681.
 */
module Genes {
  import opened Base
  import opened Connections

  // ------------------------------------------------------------------ genes

  /** A node's cached `index`: a position, or `undefined` for a node that was never indexed. */
  datatype Index = Pos(p: nat) | Undef

  /** The record kept per connection; a `gater` of None is the -1 of an ungated connection. */
  datatype Gene = Gene(weight: real, from: Index, to: Index, gater: Option<Index>)

  /**
    The dictionary key `innovationID(from, to)`: a natural, or None for the
    "NaN" key an undefined end produces.
   */
  function Key(g: Gene): Option<nat> {
    if g.from.Pos? && g.to.Pos? then Some(InnovationId(g.from.p, g.to.p)) else None
  }

  /** A gene dictionary. */
  type Genome = map<Option<nat>, Gene>

  /** Every entry is filed under its own key. */
  predicate Keyed(m: Genome) {
    forall k | k in m :: Key(m[k]) == k
  }

  /** Every integer key lies below `b`. */
  predicate KeysBelow(m: Genome, b: nat) {
    forall k | k in m && k.Some? :: k.value < b
  }

  /** No gene of `gs` after position `i` (and before `n`) has the key of `gs[i]`. */
  predicate LastWithKey(gs: seq<Gene>, i: nat, n: nat)
    requires i < n <= |gs|
  {
    forall j | i < j < n :: Key(gs[j]) != Key(gs[i])
  }

  /**
    `dict[innovationID(from, to)] = data` for the first `n` genes in turn:
    every key met is present, each entry is a gene of the list, and a later
    gene overwrites an earlier one with the same key.
   */
  function Collect(gs: seq<Gene>, n: nat): (m: Genome)
    requires n <= |gs|
    ensures Keyed(m)
    ensures forall i | 0 <= i < n :: Key(gs[i]) in m
    ensures forall k | k in m :: m[k] in gs
    ensures forall i | 0 <= i < n && LastWithKey(gs, i, n) :: m[Key(gs[i])] == gs[i]
  {
    if n == 0 then map[]
    else
      var m := Collect(gs, n - 1);
      CollectStep(gs, n, m);
      m[Key(gs[n - 1]) := gs[n - 1]]
  }

  /** Writing the n-th gene into the dictionary of the first n - 1 keeps Collect's promises. */
  lemma CollectStep(gs: seq<Gene>, n: nat, m: Genome)
    requires 0 < n <= |gs| && Keyed(m)
    requires forall i | 0 <= i < n - 1 :: Key(gs[i]) in m
    requires forall k | k in m :: m[k] in gs
    requires forall i | 0 <= i < n - 1 && LastWithKey(gs, i, n - 1) :: m[Key(gs[i])] == gs[i]
    ensures var r := m[Key(gs[n - 1]) := gs[n - 1]];
      && Keyed(r)
      && (forall i | 0 <= i < n :: Key(gs[i]) in r)
      && (forall k | k in r :: r[k] in gs)
      && forall i | 0 <= i < n && LastWithKey(gs, i, n) :: r[Key(gs[i])] == gs[i]
  {
    var g := gs[n - 1];
    var r := m[Key(g) := g];
    forall i | 0 <= i < n && LastWithKey(gs, i, n) ensures r[Key(gs[i])] == gs[i] {
      if i < n - 1 {
        assert Key(g) != Key(gs[i]);
        assert LastWithKey(gs, i, n - 1);
      }
    }
    forall k | k in r ensures r[k] in gs {
      if k != Key(g) { assert r[k] == m[k]; }
    }
  }

  /** One more than the largest integer key among the genes. */
  function Bound(gs: seq<Gene>, n: nat): (b: nat)
    requires n <= |gs|
    ensures forall i | 0 <= i < n && Key(gs[i]).Some? :: Key(gs[i]).value < b
  {
    if n == 0 then 0
    else
      var b := Bound(gs, n - 1);
      var k := Key(gs[n - 1]);
      if k.Some? && k.value >= b then k.value + 1 else b
  }

  /** The dictionary of a whole gene list stays below the list's bound. */
  lemma CollectBelow(gs: seq<Gene>)
    ensures KeysBelow(Collect(gs, |gs|), Bound(gs, |gs|))
  {
    var m := Collect(gs, |gs|);
    forall k | k in m && k.Some? ensures k.value < Bound(gs, |gs|) {
      var i :| 0 <= i < |gs| && gs[i] == m[k];
    }
  }

  // -------------------------------------------------------------- alignment

  /**
    What the pass over the first parent's keys keeps for `g`: a common
    gene comes from the parent the draw for its key names, and a gene of
    the first parent alone is kept when `keep1` holds.
   */
  predicate FirstPass(m1: Genome, m2: Genome, keep1: bool, first: Option<nat> -> bool, g: Gene) {
    var k := Key(g);
    || (k in m1 && k in m2 && g == (if first(k) then m1[k] else m2[k]))
    || (k in m1 && k !in m2 && keep1 && g == m1[k])
  }

  /** What the pass over the second parent's keys adds: a gene of the second parent alone. */
  predicate SecondPass(m1: Genome, m2: Genome, g: Gene) {
    var k := Key(g);
    k !in m1 && k in m2 && g == m2[k]
  }

  /** A gene the offspring inherits. */
  predicate Chosen(m1: Genome, m2: Genome, keep1: bool, keep2: bool, first: Option<nat> -> bool, g: Gene) {
    FirstPass(m1, m2, keep1, first, g) || (keep2 && SecondPass(m1, m2, g))
  }

  /** The genes carry integer keys, strictly decreasing along the list. */
  predicate Descending(s: seq<Gene>) {
    && (forall i | 0 <= i < |s| :: Key(s[i]).Some?)
    && (forall i, j | 0 <= i < j < |s| :: Key(s[j]).value < Key(s[i]).value)
  }

  /** The genes carry integer keys, strictly increasing along the list. */
  predicate Ascending(s: seq<Gene>) {
    && (forall i | 0 <= i < |s| :: Key(s[i]).Some?)
    && (forall i, j | 0 <= i < j < |s| :: Key(s[i]).value < Key(s[j]).value)
  }

  /** No key occurs twice. */
  predicate KeysDistinct(s: seq<Gene>) {
    forall i, j | 0 <= i < j < |s| :: Key(s[i]) != Key(s[j])
  }

  /** The first pass at one key of the first parent. */
  function Keep1(m1: Genome, m2: Genome, k: Option<nat>, keep1: bool, first: Option<nat> -> bool): (s: seq<Gene>)
    requires Keyed(m1) && Keyed(m2)
    ensures |s| <= 1
    ensures forall g :: g in s <==> Key(g) == k && FirstPass(m1, m2, keep1, first, g)
  {
    if k !in m1 then []
    else if k in m2 then [if first(k) then m1[k] else m2[k]]
    else if keep1 then [m1[k]]
    else []
  }

  /** The second pass at one key of the second parent: kept when the first pass has not taken it. */
  function Keep2(m1: Genome, m2: Genome, k: Option<nat>): (s: seq<Gene>)
    requires Keyed(m2)
    ensures |s| <= 1
    ensures forall g :: g in s <==> Key(g) == k && SecondPass(m1, m2, g)
  {
    if k in m2 && k !in m1 then [m2[k]] else []
  }

  /** The largest array index a JavaScript object enumerates in ascending order, plus one. */
  const IndexLimit: nat := 0xFFFF_FFFF

  /**
    Every innovation key of two end positions summing to less than 92,681
    is an array index, so Down and Up walk such keys in the order the
    source enumerates them; the pair (0, 92681) already has a key that is not.
   */
  lemma IndexKeys(a: nat, b: nat)
    ensures a + b < 92681 ==> InnovationId(a, b) < IndexLimit
    ensures InnovationId(0, 92681) >= IndexLimit
  {
    if a + b < 92681 {
      InnovationIdBand(a, b);
      TriMonotone(a + b + 1, 92681);
      TriClosedForm(92681);
    }
  }

  /** The first pass over the integer keys below `n`, from the largest down. */
  function Down(m1: Genome, m2: Genome, keep1: bool, first: Option<nat> -> bool, n: nat): (s: seq<Gene>)
    requires Keyed(m1) && Keyed(m2)
    ensures Descending(s)
    ensures forall g :: g in s <==> Key(g).Some? && Key(g).value < n && FirstPass(m1, m2, keep1, first, g)
  {
    if n == 0 then []
    else
      var e := Keep1(m1, m2, Some(n - 1), keep1, first);
      var rest := Down(m1, m2, keep1, first, n - 1);
      assert forall g | g in e :: Key(g) == Some(n - 1);
      e + rest
  }

  /** The second pass over the integer keys in [k, n), from the smallest up. */
  function Up(m1: Genome, m2: Genome, k: nat, n: nat): (s: seq<Gene>)
    requires Keyed(m2)
    ensures Ascending(s)
    ensures forall g :: g in s <==> Key(g).Some? && k <= Key(g).value < n && SecondPass(m1, m2, g)
    decreases n - k
  {
    if k >= n then []
    else
      var e := Keep2(m1, m2, Some(k));
      var rest := Up(m1, m2, k + 1, n);
      assert forall g | g in e :: Key(g) == Some(k);
      e + rest
  }

  lemma JoinDistinct(x: seq<Gene>, y: seq<Gene>)
    requires KeysDistinct(x) && KeysDistinct(y)
    requires forall g, g' | g in x && g' in y :: Key(g) != Key(g')
    ensures KeysDistinct(x + y)
  {
    var s := x + y;
    forall i, j | 0 <= i < j < |s| ensures Key(s[i]) != Key(s[j]) {
      if i < |x| && j >= |x| {
        assert s[i] in x && s[j] == y[j - |x|];
      } else if i >= |x| {
        assert s[i] == y[i - |x|] && s[j] == y[j - |x|];
      }
    }
  }

  lemma DescendingDistinct(s: seq<Gene>)
    requires Descending(s) || Ascending(s)
    ensures KeysDistinct(s)
  {
  }

  /**
    The genes the offspring inherits, in the order crossOver lists them:
    the first parent's keys from the last down ("NaN" first), then, when
    `keep2` holds, the second parent's remaining keys from the first up.
   */
  function Select(m1: Genome, m2: Genome, b: nat, keep1: bool, keep2: bool, first: Option<nat> -> bool)
    : (s: seq<Gene>)
    requires Keyed(m1) && Keyed(m2) && KeysBelow(m1, b) && KeysBelow(m2, b)
    ensures forall g :: g in s <==> Chosen(m1, m2, keep1, keep2, first, g)
    ensures KeysDistinct(s)
  {
    var a := Keep1(m1, m2, None, keep1, first);
    var d := Down(m1, m2, keep1, first, b);
    var t := if keep2 then Up(m1, m2, 0, b) + Keep2(m1, m2, None) else [];
    DescendingDistinct(d);
    JoinDistinct(a, d);
    assert KeysDistinct(t) by {
      if keep2 {
        DescendingDistinct(Up(m1, m2, 0, b));
        JoinDistinct(Up(m1, m2, 0, b), Keep2(m1, m2, None));
      }
    }
    JoinDistinct(a + d, t);
    a + d + t
  }

  // ------------------------------------------------------------- properties

  /**
    A gene both parents carry is inherited exactly once, from one of the
    two parents (so with that parent's weight): the draw for its key
    decides which.
   */
  lemma CommonGeneOnce(m1: Genome, m2: Genome, b: nat, keep1: bool, keep2: bool, first: Option<nat> -> bool,
                       k: Option<nat>)
    requires Keyed(m1) && Keyed(m2) && KeysBelow(m1, b) && KeysBelow(m2, b)
    requires k in m1 && k in m2
    ensures var s := Select(m1, m2, b, keep1, keep2, first);
      && (first(k) ==> m1[k] in s)
      && (!first(k) ==> m2[k] in s)
      && (forall i, j | 0 <= i < |s| && 0 <= j < |s| && Key(s[i]) == k && Key(s[j]) == k :: i == j)
      && (forall g | g in s && Key(g) == k :: g == m1[k] || g == m2[k])
      && (forall g | g in s && Key(g) == k :: g.weight == m1[k].weight || g.weight == m2[k].weight)
  {
    var s := Select(m1, m2, b, keep1, keep2, first);
    assert Chosen(m1, m2, keep1, keep2, first, if first(k) then m1[k] else m2[k]);
  }

  /**
    A gene only one parent carries is inherited exactly when that parent
    is kept: `keep1` for the first parent, `keep2` for the second.
   */
  lemma UniqueGenes(m1: Genome, m2: Genome, b: nat, keep1: bool, keep2: bool, first: Option<nat> -> bool,
                    k: Option<nat>)
    requires Keyed(m1) && Keyed(m2) && KeysBelow(m1, b) && KeysBelow(m2, b)
    ensures var s := Select(m1, m2, b, keep1, keep2, first);
      && (k in m1 && k !in m2 ==> (keep1 <==> m1[k] in s) && (!keep1 ==> forall g | g in s :: Key(g) != k))
      && (k !in m1 && k in m2 ==> (keep2 <==> m2[k] in s) && (!keep2 ==> forall g | g in s :: Key(g) != k))
  {
    var s := Select(m1, m2, b, keep1, keep2, first);
    if k in m1 && k !in m2 && keep1 {
      assert Chosen(m1, m2, keep1, keep2, first, m1[k]);
    }
    if k !in m1 && k in m2 && keep2 {
      assert Chosen(m1, m2, keep1, keep2, first, m2[k]);
    }
  }

  // ------------------------------------------------------------------ sizes

  /** `(network as any).score || 0`: an absent (or zero) score counts as 0. */
  function ScoreOr(s: Option<real>): real {
    s.GetOr(0.0)
  }

  /**
    The offspring's node count: with `equal` set or tied scores a uniform
    draw `floor(u * (max - min + 1) + min)`, otherwise the fitter parent's
    count.
   */
  function Size(len1: nat, len2: nat, tie: bool, firstFitter: bool, u: Unit): (size: nat)
    ensures tie ==> (if len1 <= len2 then len1 <= size <= len2 else len2 <= size <= len1)
    ensures !tie && firstFitter ==> size == len1
    ensures !tie && !firstFitter ==> size == len2
  {
    if tie then
      var (lo, hi) := if len1 <= len2 then (len1, len2) else (len2, len1);
      Slot(u, lo, hi - lo + 1)
    else if firstFitter then len1
    else len2
  }

  // --------------------------------------------------------------- the plan

  /** A gene as the offspring lays it down: end positions, weight, and the gater position if any. */
  datatype Link = Link(from: nat, to: nat, weight: real, gater: Option<nat>)

  /** `connData.to < size && connData.from < size` (an undefined end compares false). */
  predicate Fits(g: Gene, size: nat) {
    g.from.Pos? && g.to.Pos? && g.from.p < size && g.to.p < size
  }

  /** The gate is applied only when `gater !== -1 && gater < size`. */
  function GaterIn(g: Gene, size: nat): (r: Option<nat>)
    ensures r.Some? <==> g.gater.Some? && g.gater.value.Pos? && g.gater.value.p < size
    ensures r.Some? ==> r.value == g.gater.value.p
  {
    if g.gater.Some? && g.gater.value.Pos? && g.gater.value.p < size then Some(g.gater.value.p) else None
  }

  function LinkOf(g: Gene, size: nat): Link
    requires Fits(g, size)
  {
    Link(g.from.p, g.to.p, g.weight, GaterIn(g, size))
  }

  /** Every end and gater position lies below `size`. */
  predicate LinksBelow(ls: seq<Link>, size: nat) {
    forall i | 0 <= i < |ls| :: ls[i].from < size && ls[i].to < size && (ls[i].gater.Some? ==> ls[i].gater.value < size)
  }

  /** No two links join the same ordered pair of positions. */
  predicate PairsDistinct(ls: seq<Link>) {
    forall i, j | 0 <= i < j < |ls| :: ls[i].from != ls[j].from || ls[i].to != ls[j].to
  }

  /**
    The genes from position `k` on whose ends both fall inside an offspring
    of `size` nodes, in order, as links.
   */
  function Plan(gs: seq<Gene>, size: nat, k: nat): (ls: seq<Link>)
    requires k <= |gs|
    ensures LinksBelow(ls, size)
    ensures forall l | l in ls :: exists j | k <= j < |gs| :: Fits(gs[j], size) && l == LinkOf(gs[j], size)
    ensures forall j | k <= j < |gs| && Fits(gs[j], size) :: LinkOf(gs[j], size) in ls
    decreases |gs| - k
  {
    if k == |gs| then []
    else
      var rest := Plan(gs, size, k + 1);
      if Fits(gs[k], size) then [LinkOf(gs[k], size)] + rest else rest
  }

  /** Genes with distinct keys give links between distinct pairs. */
  lemma {:induction false} PlanPairsDistinct(gs: seq<Gene>, size: nat, k: nat)
    requires k <= |gs| && KeysDistinct(gs)
    ensures PairsDistinct(Plan(gs, size, k))
    decreases |gs| - k
  {
    if k < |gs| {
      PlanPairsDistinct(gs, size, k + 1);
      var rest := Plan(gs, size, k + 1);
      if Fits(gs[k], size) {
        var l := LinkOf(gs[k], size);
        forall l' | l' in rest ensures l'.from != l.from || l'.to != l.to {
          var j :| k + 1 <= j < |gs| && Fits(gs[j], size) && l' == LinkOf(gs[j], size);
          assert Key(gs[j]) != Key(gs[k]);
        }
        var ls := [l] + rest;
        forall i, j | 0 <= i < j < |ls| ensures ls[i].from != ls[j].from || ls[i].to != ls[j].to {
          if i == 0 {
            assert ls[j] in rest;
          } else {
            assert ls[i] == rest[i - 1] && ls[j] == rest[j - 1];
          }
        }
      }
    }
  }
}
