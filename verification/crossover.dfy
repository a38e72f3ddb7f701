/**
  `Network.crossOver(network1, network2, equal)`: the offspring's node
  count is drawn or taken from the fitter parent, each offspring node
  copies bias, squash and type from a parent node, and the inherited genes
  (see module Genes) are laid down between offspring nodes.

  The offspring lives in the same arena as its parents. The nodes and
  connections `new Network(input, output)` makes and crossOver discards at
  once are not allocated: nothing the offspring holds refers to them. Each
  `Math.random()` is an explicit choice: `u` for the node count,
  `picks(i)` for "draw >= 0.5" at offspring position i, `first(k)` for
  "draw >= 0.5" at the common gene with key k, and `ws` for the weight a
  fresh connection draws before the gene's weight replaces it.
 */
module Crossover {
  import opened Base
  import opened Nodes
  import opened Networks
  import opened Genes

  // ---------------------------------------------------------------- indices

  /** `n` is among the first `k` entries of `ids`. */
  predicate Among(ids: seq<nat>, k: nat, n: nat)
    requires k <= |ids|
  {
    exists i | 0 <= i < k :: ids[i] == n
  }

  /** `ids[i]` does not occur again before position `k`. */
  predicate LastAt(ids: seq<nat>, i: nat, k: nat)
    requires i < k <= |ids|
  {
    forall j | i < j < k :: ids[j] != ids[i]
  }

  /**
    `for (i = 0; i < k; i++) ids[i].index = i`: only index fields change,
    and a node outside the first k entries keeps the index it had.
   */
  function Stamp(h: Heap, ids: seq<nat>, k: nat): (r: Heap)
    requires Wf(h) && IdsBelow(ids, |h.nodes|) && k <= |ids|
    ensures Wf(r) && |r.nodes| == |h.nodes| && r.conns == h.conns
    ensures forall n | 0 <= n < |h.nodes| :: r.nodes[n] == h.nodes[n].(index := r.nodes[n].index)
    ensures forall n | 0 <= n < |h.nodes| && !Among(ids, k, n) :: r.nodes[n].index == h.nodes[n].index
  {
    if k == 0 then h
    else
      var h1 := Stamp(h, ids, k - 1);
      var n := ids[k - 1];
      assert NodeWf(h1.nodes[n], |h1.conns|);
      assert forall m | 0 <= m < |h.nodes| && !Among(ids, k, m) :: !Among(ids, k - 1, m) && m != n;
      PutNode(h1, n, h1.nodes[n].(index := Some(k - 1)))
  }

  /** A node met last at position i of the first k entries ends with index i. */
  lemma {:induction false} StampLast(h: Heap, ids: seq<nat>, k: nat)
    requires Wf(h) && IdsBelow(ids, |h.nodes|) && k <= |ids|
    ensures forall i | 0 <= i < k && LastAt(ids, i, k) :: Stamp(h, ids, k).nodes[ids[i]].index == Some(i)
  {
    if k > 0 {
      StampLast(h, ids, k - 1);
      var s1 := Stamp(h, ids, k - 1).nodes;
      var s := Stamp(h, ids, k).nodes;
      assert s == s1[ids[k - 1] := s1[ids[k - 1]].(index := Some(k - 1))];
      StampLastStep(ids, k, s1, s);
    }
  }

  lemma StampLastStep(ids: seq<nat>, k: nat, s1: seq<Node>, s: seq<Node>)
    requires 0 < k <= |ids| && ids[k - 1] < |s1|
    requires forall i | 0 <= i < k - 1 && LastAt(ids, i, k - 1) :: ids[i] < |s1| && s1[ids[i]].index == Some(i)
    requires s == s1[ids[k - 1] := s1[ids[k - 1]].(index := Some(k - 1))]
    ensures forall i | 0 <= i < k && LastAt(ids, i, k) :: ids[i] < |s| && s[ids[i]].index == Some(i)
  {
    forall i | 0 <= i < k && LastAt(ids, i, k) ensures ids[i] < |s| && s[ids[i]].index == Some(i) {
      if i < k - 1 {
        assert LastAt(ids, i, k - 1) && ids[i] != ids[k - 1];
      }
    }
  }

  /** Stamping a list without repeats gives every member its position. */
  lemma StampDistinct(h: Heap, ids: seq<nat>)
    requires Wf(h) && IdsBelow(ids, |h.nodes|) && Distinct(ids)
    ensures forall i | 0 <= i < |ids| :: Stamp(h, ids, |ids|).nodes[ids[i]].index == Some(i)
  {
    StampLast(h, ids, |ids|);
    forall i | 0 <= i < |ids| ensures LastAt(ids, i, |ids|) {
    }
  }

  /** Both parents stamped, the first parent first: a node shared by both keeps the second's position. */
  function Stamped(h: Heap, N1: Network, N2: Network): (r: Heap)
    requires Wf(h) && IdsBelow(N1.nodes, |h.nodes|) && IdsBelow(N2.nodes, |h.nodes|)
    ensures Wf(r) && |r.nodes| == |h.nodes| && r.conns == h.conns
    ensures forall n | 0 <= n < |h.nodes| :: r.nodes[n] == h.nodes[n].(index := r.nodes[n].index)
  {
    var h1 := Stamp(h, N1.nodes, |N1.nodes|);
    Stamp(h1, N2.nodes, |N2.nodes|)
  }

  // ------------------------------------------------------------------ genes

  /** A node's cached `index` as crossOver reads it. */
  function CachedIndex(h: Heap, n: nat): Index
    requires n < |h.nodes|
  {
    match h.nodes[n].index
    case Some(i) => Pos(i)
    case None => Undef
  }

  /** The `data` record of connection `c`: weight, end indices, and gater index or -1. */
  function GeneOf(h: Heap, c: nat): (g: Gene)
    requires Wf(h) && c < |h.conns|
  {
    var x := h.conns[c];
    assert ConnWf(x, |h.nodes|);
    Gene(x.weight, CachedIndex(h, x.from), CachedIndex(h, x.to),
         if x.gater.Some? then Some(CachedIndex(h, x.gater.value)) else None)
  }

  /** The records of `cs`, in order. */
  function GenesOf(h: Heap, cs: seq<nat>): (gs: seq<Gene>)
    requires Wf(h) && IdsBelow(cs, |h.conns|)
    ensures |gs| == |cs| && forall i | 0 <= i < |cs| :: gs[i] == GeneOf(h, cs[i])
  {
    seq(|cs|, i requires 0 <= i < |cs| => GeneOf(h, cs[i]))
  }

  /**
    A connection of a parent whose ends (and gater) belong to that parent
    alone, in a parent without repeated members, gives the gene of its end
    positions there.
   */
  lemma GeneOfMember(h: Heap, N1: Network, N2: Network, c: nat)
    requires Wf(h) && IdsBelow(N1.nodes, |h.nodes|) && IdsBelow(N2.nodes, |h.nodes|)
    requires Distinct(N1.nodes) && c < |h.conns|
    requires h.conns[c].from in N1.nodes && h.conns[c].from !in N2.nodes
    requires h.conns[c].to in N1.nodes && h.conns[c].to !in N2.nodes
    ensures var g := GeneOf(Stamped(h, N1, N2), c);
      && g.from == Pos(IndexOf(N1.nodes, h.conns[c].from))
      && g.to == Pos(IndexOf(N1.nodes, h.conns[c].to))
      && g.weight == h.conns[c].weight
  {
    var h1 := Stamp(h, N1.nodes, |N1.nodes|);
    StampDistinct(h, N1.nodes);
    var (a, b) := (h.conns[c].from, h.conns[c].to);
    assert !Among(N2.nodes, |N2.nodes|, a) && !Among(N2.nodes, |N2.nodes|, b);
    var i := IndexOf(N1.nodes, a);
    var j := IndexOf(N1.nodes, b);
    assert h1.nodes[N1.nodes[i]].index == Some(i) && h1.nodes[N1.nodes[j]].index == Some(j);
  }

  // ------------------------------------------------------------------ nodes

  /**
    The parent node copied into offspring position `i` (None for
    `undefined`). In front of the last `output` positions it is the node at
    position i of the parent `pick` names, or of the other parent when that
    one is missing or an output node; in the last `output` positions it is
    the node at the same distance from the end of the named parent.
   */
  function Parent(h: Heap, N1: Network, N2: Network, size: nat, i: nat, pick: bool): (r: Option<nat>)
    requires IdsBelow(N1.nodes, |h.nodes|) && IdsBelow(N2.nodes, |h.nodes|)
    ensures r.Some? ==> r.value < |h.nodes| && (r.value in N1.nodes || r.value in N2.nodes)
    ensures i < size - N1.output ==> r == At(N1.nodes, i) || r == At(N2.nodes, i)
    ensures i < size - N1.output && r.Some? && h.nodes[r.value].kind == Output ==>
      && (i < |N1.nodes| ==> h.nodes[N1.nodes[i]].kind == Output)
      && (i < |N2.nodes| ==> h.nodes[N2.nodes[i]].kind == Output)
    ensures i >= size - N1.output ==>
      r == At(N1.nodes, |N1.nodes| + i - size) || r == At(N2.nodes, |N2.nodes| + i - size)
  {
    if i < size - N1.output then
      var node := if pick then At(N1.nodes, i) else At(N2.nodes, i);
      var other := if pick then At(N2.nodes, i) else At(N1.nodes, i);
      if node.None? || h.nodes[node.value].kind == Output then other else node
    else if pick then At(N1.nodes, |N1.nodes| + i - size)
    else At(N2.nodes, |N2.nodes| + i - size)
  }

  /**
    Offspring node `n`, owning self-connection `c`, has the bias, squash
    and type of parent node `x` and is otherwise fresh: no edges, a dead
    self-connection and no cached index.
   */
  predicate Copied(h: Heap, x: nat, h2: Heap, n: nat, c: nat)
    requires x < |h.nodes|
  {
    && FreshAt(h2, n, h.nodes[x].kind, c)
    && h2.nodes[n].bias == h.nodes[x].bias
    && h2.nodes[n].squash == h.nodes[x].squash
    && h2.nodes[n].index == None
  }

  /** `new Node()` with bias, squash and type then copied from parent node `x`. */
  function Copy(h: Heap, x: nat): (r: (Heap, nat))
    requires Wf(h) && x < |h.nodes|
    ensures Wf(r.0) && r.1 == |h.nodes| && |r.0.nodes| == |h.nodes| + 1
    ensures forall k | 0 <= k < |h.nodes| :: r.0.nodes[k] == h.nodes[k]
    ensures r.0.conns == h.conns + [Connections.New(r.1, r.1, Some(0.0), 0.0)]
    ensures Copied(h, x, r.0, r.1, |h.conns|)
  {
    // the random bias `new Node()` starts with is overwritten at once
    var (h1, n) := NewNode(h, None, 0.0);
    assert forall k | 0 <= k < |h.nodes| :: h1.nodes[k] == h.nodes[k] by {
      forall k | 0 <= k < |h.nodes| ensures h1.nodes[k] == h.nodes[k] {
        assert h1.nodes[..|h.nodes|][k] == h1.nodes[k];
      }
    }
    var y := h1.nodes[n];
    assert NodeWf(y, |h1.conns|);
    (PutNode(h1, n, y.(bias := h.nodes[x].bias, squash := h.nodes[x].squash, kind := h.nodes[x].kind)), n)
  }

  /** The first `i` offspring nodes: appended in order, each a copy of its parent node. */
  predicate Spawned(h: Heap, N1: Network, N2: Network, size: nat, picks: nat -> bool, i: nat,
                    h2: Heap, ids: seq<nat>)
    requires IdsBelow(N1.nodes, |h.nodes|) && IdsBelow(N2.nodes, |h.nodes|)
  {
    && Wf(h2) && |h2.nodes| == |h.nodes| + i && |h2.conns| == |h.conns| + i && |ids| == i
    && (forall k | 0 <= k < |h.nodes| :: h2.nodes[k] == h.nodes[k])
    && (forall k | 0 <= k < |h.conns| :: h2.conns[k] == h.conns[k])
    && (forall j | 0 <= j < i ::
          && ids[j] == |h.nodes| + j
          && Parent(h, N1, N2, size, j, picks(j)).Some?
          && Copied(h, Parent(h, N1, N2, size, j, picks(j)).value, h2, ids[j], |h.conns| + j))
  }

  lemma SpawnStep(h: Heap, N1: Network, N2: Network, size: nat, picks: nat -> bool, i: nat,
                  h1: Heap, ids: seq<nat>, x: nat)
    requires Wf(h) && IdsBelow(N1.nodes, |h.nodes|) && IdsBelow(N2.nodes, |h.nodes|) && i > 0
    requires Spawned(h, N1, N2, size, picks, i - 1, h1, ids)
    requires Parent(h, N1, N2, size, i - 1, picks(i - 1)) == Some(x)
    ensures Spawned(h, N1, N2, size, picks, i, Copy(h1, x).0, ids + [Copy(h1, x).1])
  {
    var (h2, n) := Copy(h1, x);
    assert h1.nodes[x] == h.nodes[x];
    forall j | 0 <= j < i - 1
      ensures Copied(h, Parent(h, N1, N2, size, j, picks(j)).value, h2, ids[j], |h.conns| + j)
    {
      assert Copied(h, Parent(h, N1, N2, size, j, picks(j)).value, h1, ids[j], |h.conns| + j);
    }
  }

  /**
    The offspring's nodes at positions below `i`; copying from an
    `undefined` parent node throws.
   */
  function Spawn(h: Heap, N1: Network, N2: Network, size: nat, picks: nat -> bool, i: nat)
    : (r: Result<(Heap, seq<nat>)>)
    requires Wf(h) && IdsBelow(N1.nodes, |h.nodes|) && IdsBelow(N2.nodes, |h.nodes|)
    ensures r.Err? <==> exists j | 0 <= j < i :: Parent(h, N1, N2, size, j, picks(j)).None?
    ensures r.Err? ==> r.error == Undefined
    ensures r.Ok? ==> Spawned(h, N1, N2, size, picks, i, r.value.0, r.value.1)
  {
    if i == 0 then Ok((h, []))
    else
      var (h1, ids) :- Spawn(h, N1, N2, size, picks, i - 1);
      var x := Parent(h, N1, N2, size, i - 1, picks(i - 1));
      if x.None? then Err(Undefined)
      else
        SpawnStep(h, N1, N2, size, picks, i, h1, ids, x.value);
        var (h2, n) := Copy(h1, x.value);
        Ok((h2, ids + [n]))
  }

  // ------------------------------------------------------------------ links

  /** Bias, squash, type, self-connection and index of every node are kept. */
  predicate SameValues(h: Heap, h2: Heap) {
    && |h2.nodes| == |h.nodes|
    && forall n | 0 <= n < |h.nodes| ::
         && h2.nodes[n].bias == h.nodes[n].bias
         && h2.nodes[n].squash == h.nodes[n].squash
         && h2.nodes[n].kind == h.nodes[n].kind
         && h2.nodes[n].selfConn == h.nodes[n].selfConn
         && h2.nodes[n].index == h.nodes[n].index
  }

  /** `network.connect` changes no node's values. */
  lemma ConnectValues(h: Heap, N: Network, a: nat, b: nat, w: Option<real>, draw: real)
    requires Wf(h) && a < |h.nodes| && b < |h.nodes|
    ensures var r := Networks.Connect(h, N, a, b, w, draw);
      r.Ok? ==> SameValues(h, r.value.0)
  {
  }

  /** `network.gate` changes no node's values. */
  lemma GateValues(h: Heap, N: Network, g: nat, c: nat)
    requires Wf(h) && g < |h.nodes| && c < |h.conns|
    ensures var r := Networks.Gate(h, N, g, c);
      r.Ok? ==> SameValues(h, r.value.0)
  {
  }

  /**
    How connections change when `c` is laid from `a` to `b` with weight
    `w` and gater `gate`: only `c` changes, no existing connection changes
    its ends, a new connection joins `a` to `b`, and `c` keeps a gater it
    already had.
   */
  predicate ConnsStep(h: Heap, h2: Heap, a: nat, b: nat, w: real, gate: Option<nat>, c: nat)
    requires |h.conns| <= |h2.conns| && c < |h2.conns|
  {
    && (forall d | 0 <= d < |h.conns| && d != c :: h2.conns[d] == h.conns[d])
    && (forall d | 0 <= d < |h.conns| :: h2.conns[d].from == h.conns[d].from && h2.conns[d].to == h.conns[d].to)
    && (a != b ==> h2.conns[c].from == a && h2.conns[c].to == b)
    && h2.conns[c].weight == w
    && h2.conns[c].gater == (if c < |h.conns| && h.conns[c].gater.Some? then h.conns[c].gater else gate)
  }

  /** How nodes change: values are kept and only `a`'s outgoing list grows, by `c`, when a != b. */
  predicate NodesStep(h: Heap, h2: Heap, a: nat, b: nat, c: nat)
    requires |h2.nodes| == |h.nodes|
  {
    && SameValues(h, h2)
    && (forall x | 0 <= x < |h.nodes| ::
          h2.nodes[x].outConns == if a != b && x == a then h.nodes[x].outConns + [c] else h.nodes[x].outConns)
  }

  /** How the offspring's lists and the arena's size change. */
  predicate ListsStep(h: Heap, N: Network, a: nat, b: nat, h2: Heap, N2: Network, c: nat)
    requires Wf(h) && a < |h.nodes|
  {
    && N2 == N.(connections := N2.connections, selfconns := N2.selfconns, gates := N2.gates)
    && |h2.nodes| == |h.nodes|
    && (a != b ==>
          && c == |h.conns| && |h2.conns| == |h.conns| + 1
          && N2.connections == N.connections + [c] && N2.selfconns == N.selfconns)
    && (a == b ==>
          && c == h.nodes[a].selfConn && |h2.conns| == |h.conns|
          && N2.selfconns == N.selfconns + [c] && N2.connections == N.connections)
  }

  /** Laying `c` from `a` to `b` with weight `w` and gater `gate` took (h, N) to (h2, N2). */
  predicate Stepped(h: Heap, N: Network, a: nat, b: nat, w: real, gate: Option<nat>, h2: Heap, N2: Network, c: nat)
    requires Wf(h) && a < |h.nodes|
  {
    && Wf(h2) && Indexed(h2, N2) && ListsStep(h, N, a, b, h2, N2, c) && c < |h2.conns|
    && ConnsStep(h, h2, a, b, w, gate, c) && NodesStep(h, h2, a, b, c)
  }

  /** `offspring.connect(a, b)` and then `conn.weight = w`; a self-link revives the node's self-connection. */
  function Join(h: Heap, N: Network, a: nat, b: nat, w: real, draw: real): (r: Result<(Heap, Network, nat)>)
    requires Wf(h) && Indexed(h, N) && a < |h.nodes| && b < |h.nodes|
    ensures r.Err? <==> a != b && IsProjectingTo(h, a, b)
    ensures r.Ok? ==> Stepped(h, N, a, b, w, None, r.value.0, r.value.1, r.value.2)
  {
    var (h1, N1, cs) :- Networks.Connect(h, N, a, b, None, draw);
    var c := cs[0];
    assert ConnWf(h1.conns[c], |h1.nodes|);
    Ok((PutConn(h1, c, h1.conns[c].(weight := w)), N1, c))
  }

  /**
    Connecting two distinct nodes that are not yet joined with a given
    weight is connecting them and then writing the weight.
   */
  lemma JoinWeighted(h: Heap, N: Network, a: nat, b: nat, w: real)
    requires Wf(h) && Indexed(h, N) && a < |h.nodes| && b < |h.nodes|
    requires a != b && !IsProjectingTo(h, a, b)
    ensures var r := Networks.Connect(h, N, a, b, Some(w), 0.0);
      && r.Ok? && r.value.2 == [|h.conns|]
      && Join(h, N, a, b, w, 0.0) == Ok((r.value.0, r.value.1, |h.conns|))
  {
    var (h1, N1, cs) := Networks.Connect(h, N, a, b, Some(w), 0.0).value;
    var (j1, M1, ds) := Networks.Connect(h, N, a, b, None, 0.0).value;
    var c := |h.conns|;
    assert cs == ds == [c] && N1 == M1;
    assert ConnWf(j1.conns[c], |j1.nodes|);
    var k1 := PutConn(j1, c, j1.conns[c].(weight := w));
    assert k1.nodes == h1.nodes;
    assert k1.conns == h1.conns;
  }

  /** `offspring.gate(g, c)` for a member `g`: only `c` changes, and only when it had no gater. */
  function GateMember(h: Heap, N: Network, g: nat, c: nat): (r: (Heap, Network))
    requires Wf(h) && Indexed(h, N) && g in N.nodes && c < |h.conns|
    ensures Wf(r.0) && Indexed(r.0, r.1) && |r.0.conns| == |h.conns| && |r.0.nodes| == |h.nodes|
    ensures r.1 == N.(gates := r.1.gates)
    ensures forall d | 0 <= d < |h.conns| && d != c :: r.0.conns[d] == h.conns[d]
    ensures r.0.conns[c] == h.conns[c].(gater := if h.conns[c].gater.Some? then h.conns[c].gater else Some(g))
    ensures NodesStep(h, r.0, g, g, c)
  {
    assert g < |h.nodes|;
    Networks.Gate(h, N, g, c).value
  }

  /** The gater position a link carries, as a node of the offspring. */
  function GaterNode(N: Network, l: Link): Option<nat>
    requires l.gater.Some? ==> l.gater.value < |N.nodes|
  {
    if l.gater.Some? then Some(N.nodes[l.gater.value]) else None
  }

  /**
    One gene laid down: `offspring.connect(from, to)`, the gene's weight
    written over the drawn one, and `offspring.gate(gater, conn)` when the
    gater is below size. Only the connect can throw.
   */
  function Lay(h: Heap, N: Network, l: Link, draw: real): (r: Result<(Heap, Network, nat)>)
    requires Wf(h) && Indexed(h, N) && l.from < |N.nodes| && l.to < |N.nodes|
    requires l.gater.Some? ==> l.gater.value < |N.nodes|
    ensures r.Err? <==> N.nodes[l.from] != N.nodes[l.to] && IsProjectingTo(h, N.nodes[l.from], N.nodes[l.to])
    ensures r.Ok? ==>
      Stepped(h, N, N.nodes[l.from], N.nodes[l.to], l.weight, GaterNode(N, l), r.value.0, r.value.1, r.value.2)
  {
    var (a, b) := (N.nodes[l.from], N.nodes[l.to]);
    var (h1, N1, c) :- Join(h, N, a, b, l.weight, draw);
    if l.gater.None? then Ok((h1, N1, c))
    else
      var g := N.nodes[l.gater.value];
      var (h2, N2) := GateMember(h1, N1, g, c);
      GateAfterJoin(h, N, a, b, l.weight, g, h1, N1, h2, N2, c);
      Ok((h2, N2, c))
  }

  lemma GateAfterJoin(h: Heap, N: Network, a: nat, b: nat, w: real, g: nat, h1: Heap, N1: Network,
                      h2: Heap, N2: Network, c: nat)
    requires Wf(h) && a < |h.nodes| && Stepped(h, N, a, b, w, None, h1, N1, c)
    requires Wf(h2) && Indexed(h2, N2)
    requires |h2.conns| == |h1.conns| && |h2.nodes| == |h1.nodes| && N2 == N1.(gates := N2.gates)
    requires forall d | 0 <= d < |h1.conns| && d != c :: h2.conns[d] == h1.conns[d]
    requires h2.conns[c] == h1.conns[c].(gater := if h1.conns[c].gater.Some? then h1.conns[c].gater else Some(g))
    requires NodesStep(h1, h2, g, g, c)
    ensures Stepped(h, N, a, b, w, Some(g), h2, N2, c)
  {
  }

  // ------------------------------------------------------------- the build

  /** Link `l` lies between offspring positions: both ends, and the gater if any, index `ids`. */
  predicate Within(l: Link, n: nat) {
    l.from < n && l.to < n && (l.gater.Some? ==> l.gater.value < n)
  }

  /**
    Connection `c` carries link `l` between the offspring nodes `ids`: its
    ends are the nodes at the link's positions, its weight is the gene's
    and its gater is the node at the gater position, if any.
   */
  predicate Carries(h: Heap, ids: seq<nat>, l: Link, c: nat)
    requires Within(l, |ids|)
  {
    && c < |h.conns|
    && h.conns[c].from == ids[l.from] && h.conns[c].to == ids[l.to]
    && h.conns[c].weight == l.weight
    && h.conns[c].gater == (if l.gater.Some? then Some(ids[l.gater.value]) else None)
  }

  /** One of the first `k` links joins position `p` to position `q`. */
  predicate Made(plan: seq<Link>, k: nat, p: nat, q: nat)
    requires k <= |plan|
  {
    exists i | 0 <= i < k :: plan[i].from == p && plan[i].to == q
  }

  /** The shape every build state has: links inside the offspring, at most one per pair. */
  predicate Frame(h: Heap, N: Network, plan: seq<Link>, made: seq<nat>) {
    && Wf(h) && Indexed(h, N) && Distinct(N.nodes) && |made| <= |plan|
    && LinksBelow(plan, |N.nodes|) && PairsDistinct(plan)
  }

  /** Each link laid so far is carried by the connection made for it. */
  predicate AllCarried(h: Heap, N: Network, plan: seq<Link>, made: seq<nat>)
    requires Frame(h, N, plan, made)
  {
    forall i | 0 <= i < |made| :: Carries(h, N.nodes, plan[i], made[i])
  }

  /** The connections made for links between distinct positions, in the order they were made. */
  function Plain(plan: seq<Link>, made: seq<nat>): (cs: seq<nat>)
    requires |made| <= |plan|
    decreases |made|
  {
    if made == [] then []
    else
      var k := |made| - 1;
      Plain(plan, made[..k]) + (if plan[k].from != plan[k].to then [made[k]] else [])
  }

  /** The connections made for self-links, in the order they were made. */
  function Selfs(plan: seq<Link>, made: seq<nat>): (cs: seq<nat>)
    requires |made| <= |plan|
    decreases |made|
  {
    if made == [] then []
    else
      var k := |made| - 1;
      Selfs(plan, made[..k]) + (if plan[k].from == plan[k].to then [made[k]] else [])
  }

  /** `connections` lists the plain connections made and `selfconns` the self ones, in order. */
  predicate Filed(N: Network, plan: seq<Link>, made: seq<nat>)
    requires |made| <= |plan|
  {
    N.connections == Plain(plan, made) && N.selfconns == Selfs(plan, made)
  }

  /** Between them the two lists hold every connection made, and nothing else. */
  lemma {:induction false} FiledCover(plan: seq<Link>, made: seq<nat>)
    requires |made| <= |plan|
    ensures forall c :: c in made <==> c in Plain(plan, made) || c in Selfs(plan, made)
    ensures |Plain(plan, made)| + |Selfs(plan, made)| == |made|
    decreases |made|
  {
    if made != [] {
      var k := |made| - 1;
      FiledCover(plan, made[..k]);
      assert made == made[..k] + [made[k]];
    }
  }

  /** Without self-links every connection made is plain. */
  lemma {:induction false} PlainAll(plan: seq<Link>, made: seq<nat>)
    requires |made| <= |plan| && forall i | 0 <= i < |made| :: plan[i].from != plan[i].to
    ensures Plain(plan, made) == made && Selfs(plan, made) == []
    decreases |made|
  {
    if made != [] {
      var k := |made| - 1;
      PlainAll(plan, made[..k]);
      assert made == made[..k] + [made[k]];
    }
  }

  /** Every offspring node's self-connection runs from the node to itself. */
  predicate SelfLoops(h: Heap, N: Network)
    requires Wf(h) && Indexed(h, N)
  {
    forall p | 0 <= p < |N.nodes| ::
      var s := h.nodes[N.nodes[p]].selfConn;
      s < |h.conns| && h.conns[s].from == N.nodes[p] && h.conns[s].to == N.nodes[p]
  }

  /** A self-connection no self-link has been laid on yet has no gater. */
  predicate SelfsFresh(h: Heap, N: Network, plan: seq<Link>, made: seq<nat>)
    requires Frame(h, N, plan, made)
  {
    forall p | 0 <= p < |N.nodes| && !Made(plan, |made|, p, p) ::
      var s := h.nodes[N.nodes[p]].selfConn;
      s < |h.conns| && h.conns[s].gater == None
  }

  /** Every outgoing connection of an offspring node was made for a link from that node. */
  predicate OutsMade(h: Heap, N: Network, plan: seq<Link>, made: seq<nat>)
    requires Frame(h, N, plan, made)
  {
    forall p, c | 0 <= p < |N.nodes| && c in h.nodes[N.nodes[p]].outConns ::
      exists i | 0 <= i < |made| :: made[i] == c && plan[i].from == p
  }

  /** The state after the first |made| links of `plan` are laid. */
  predicate Built(h: Heap, N: Network, plan: seq<Link>, made: seq<nat>) {
    && Frame(h, N, plan, made)
    && AllCarried(h, N, plan, made)
    && Filed(N, plan, made)
    && SelfLoops(h, N)
    && SelfsFresh(h, N, plan, made)
    && OutsMade(h, N, plan, made)
  }

  /** The next link joins two offspring nodes no earlier link has joined, so connect does not throw. */
  lemma NotYetProjecting(h: Heap, N: Network, plan: seq<Link>, made: seq<nat>)
    requires Built(h, N, plan, made) && |made| < |plan|
    ensures var l := plan[|made|];
      N.nodes[l.from] == N.nodes[l.to] || !IsProjectingTo(h, N.nodes[l.from], N.nodes[l.to])
  {
    var l := plan[|made|];
    var (a, b) := (N.nodes[l.from], N.nodes[l.to]);
    forall c | c in h.nodes[a].outConns ensures h.conns[c].to != b {
      var i :| 0 <= i < |made| && made[i] == c && plan[i].from == l.from;
      assert Carries(h, N.nodes, plan[i], made[i]);
      assert plan[i].to != l.to;
    }
  }

  /** Laying the next link of `plan` took (h, N) to (h2, N2) through connection `c`. */
  predicate Next(h: Heap, N: Network, plan: seq<Link>, made: seq<nat>, h2: Heap, N2: Network, c: nat)
    requires Frame(h, N, plan, made) && |made| < |plan|
  {
    var l := plan[|made|];
    Stepped(h, N, N.nodes[l.from], N.nodes[l.to], l.weight, GaterNode(N, l), h2, N2, c)
  }

  lemma StepFrame(h: Heap, N: Network, plan: seq<Link>, made: seq<nat>, h2: Heap, N2: Network, c: nat)
    requires Frame(h, N, plan, made) && |made| < |plan| && Next(h, N, plan, made, h2, N2, c)
    ensures Frame(h2, N2, plan, made + [c]) && N2.nodes == N.nodes
  {
  }

  lemma StepLoops(h: Heap, N: Network, plan: seq<Link>, made: seq<nat>, h2: Heap, N2: Network, c: nat)
    requires Frame(h, N, plan, made) && |made| < |plan| && Next(h, N, plan, made, h2, N2, c)
    requires SelfLoops(h, N)
    ensures SelfLoops(h2, N2)
  {
    forall p | 0 <= p < |N2.nodes|
      ensures var s := h2.nodes[N2.nodes[p]].selfConn;
        s < |h2.conns| && h2.conns[s].from == N2.nodes[p] && h2.conns[s].to == N2.nodes[p]
    {
      assert h2.nodes[N.nodes[p]].selfConn == h.nodes[N.nodes[p]].selfConn;
    }
  }

  lemma StepFiled(h: Heap, N: Network, plan: seq<Link>, made: seq<nat>, h2: Heap, N2: Network, c: nat)
    requires Frame(h, N, plan, made) && |made| < |plan| && Next(h, N, plan, made, h2, N2, c)
    requires Filed(N, plan, made)
    ensures Filed(N2, plan, made + [c])
  {
    assert (made + [c])[..|made|] == made;
  }

  lemma StepCarried(h: Heap, N: Network, plan: seq<Link>, made: seq<nat>, h2: Heap, N2: Network, c: nat)
    requires Built(h, N, plan, made) && |made| < |plan| && Next(h, N, plan, made, h2, N2, c)
    ensures Frame(h2, N2, plan, made + [c]) && AllCarried(h2, N2, plan, made + [c])
  {
    StepFrame(h, N, plan, made, h2, N2, c);
    var l := plan[|made|];
    var ids := N.nodes;
    if l.from == l.to {
      var s := h.nodes[ids[l.from]].selfConn;
      assert !Made(plan, |made|, l.from, l.from);
      forall i | 0 <= i < |made| ensures made[i] != s {
        assert Carries(h, ids, plan[i], made[i]);
      }
    }
    var m := made + [c];
    forall i | 0 <= i < |m| ensures Carries(h2, ids, plan[i], m[i]) {
      if i < |made| {
        assert Carries(h, ids, plan[i], made[i]);
      }
    }
  }

  lemma StepFresh(h: Heap, N: Network, plan: seq<Link>, made: seq<nat>, h2: Heap, N2: Network, c: nat)
    requires Built(h, N, plan, made) && |made| < |plan| && Next(h, N, plan, made, h2, N2, c)
    ensures Frame(h2, N2, plan, made + [c]) && SelfsFresh(h2, N2, plan, made + [c])
  {
    StepFrame(h, N, plan, made, h2, N2, c);
    var l := plan[|made|];
    var ids := N.nodes;
    forall p | 0 <= p < |ids| && !Made(plan, |made| + 1, p, p)
      ensures var s := h2.nodes[ids[p]].selfConn; s < |h2.conns| && h2.conns[s].gater == None
    {
      assert !Made(plan, |made|, p, p);
      assert l.from != p || l.to != p;
      assert h2.nodes[ids[p]].selfConn == h.nodes[ids[p]].selfConn;
    }
  }

  lemma StepOuts(h: Heap, N: Network, plan: seq<Link>, made: seq<nat>, h2: Heap, N2: Network, c: nat)
    requires Built(h, N, plan, made) && |made| < |plan| && Next(h, N, plan, made, h2, N2, c)
    ensures Frame(h2, N2, plan, made + [c]) && OutsMade(h2, N2, plan, made + [c])
  {
    StepFrame(h, N, plan, made, h2, N2, c);
    var l := plan[|made|];
    var ids := N.nodes;
    var m := made + [c];
    forall p, d | 0 <= p < |ids| && d in h2.nodes[ids[p]].outConns
      ensures exists i | 0 <= i < |m| :: m[i] == d && plan[i].from == p
    {
      if d in h.nodes[ids[p]].outConns {
        var i :| 0 <= i < |made| && made[i] == d && plan[i].from == p;
        assert m[i] == d;
      } else {
        assert m[|made|] == d;
      }
    }
  }

  lemma BuildStep(h: Heap, N: Network, plan: seq<Link>, made: seq<nat>, h2: Heap, N2: Network, c: nat)
    requires Built(h, N, plan, made) && |made| < |plan| && Next(h, N, plan, made, h2, N2, c)
    ensures Built(h2, N2, plan, made + [c]) && SameValues(h, h2)
    ensures N2.nodes == N.nodes && N2.input == N.input && N2.output == N.output && N2.dropout == N.dropout
  {
    StepFrame(h, N, plan, made, h2, N2, c);
    StepCarried(h, N, plan, made, h2, N2, c);
    StepFiled(h, N, plan, made, h2, N2, c);
    StepLoops(h, N, plan, made, h2, N2, c);
    StepFresh(h, N, plan, made, h2, N2, c);
    StepOuts(h, N, plan, made, h2, N2, c);
  }

  /**
    The loop over the inherited links from position |made| on: each is
    laid in turn, and none throws, since no two join the same pair.
   */
  function Build(h: Heap, N: Network, plan: seq<Link>, made: seq<nat>): (r: (Heap, Network, seq<nat>))
    requires Built(h, N, plan, made)
    ensures Built(r.0, r.1, plan, r.2) && |r.2| == |plan| && SameValues(h, r.0)
    ensures r.1.nodes == N.nodes && r.1.input == N.input && r.1.output == N.output && r.1.dropout == N.dropout
    decreases |plan| - |made|
  {
    if |made| == |plan| then (h, N, made)
    else
      var l := plan[|made|];
      NotYetProjecting(h, N, plan, made);
      var laid := Lay(h, N, l, 0.0);
      var (h2, N2, c) := laid.value;
      BuildStep(h, N, plan, made, h2, N2, c);
      Build(h2, N2, plan, made + [c])
  }

  // -------------------------------------------------------------- crossOver

  /** The gene records of a parent: its `connections` and then its `selfconns`. */
  function GenesOfNet(h: Heap, N: Network): (gs: seq<Gene>)
    requires Wf(h) && Indexed(h, N)
    ensures |gs| == |N.connections| + |N.selfconns|
  {
    var cs := N.connections + N.selfconns;
    assert IdsBelow(cs, |h.conns|) by {
      forall i | 0 <= i < |cs| ensures cs[i] < |h.conns| {
        if i >= |N.connections| { assert cs[i] == N.selfconns[i - |N.connections|]; }
      }
    }
    GenesOf(h, cs)
  }

  /**
    The links the offspring inherits, in order: the genes of both parents
    (read from the arena `hs` after stamping) aligned by key, kept as the
    scores say, and restricted to those that fit `size` nodes.
   */
  function Inherited(hs: Heap, N1: Network, N2: Network, s1: real, s2: real, equal: bool,
                     first: Option<nat> -> bool, size: nat): (plan: seq<Link>)
    requires Wf(hs) && Indexed(hs, N1) && Indexed(hs, N2)
    ensures LinksBelow(plan, size) && PairsDistinct(plan)
  {
    var (g1, g2) := (GenesOfNet(hs, N1), GenesOfNet(hs, N2));
    var (m1, m2) := (Collect(g1, |g1|), Collect(g2, |g2|));
    var (b1, b2) := (Bound(g1, |g1|), Bound(g2, |g2|));
    var b := if b1 <= b2 then b2 else b1;
    CollectBelow(g1);
    CollectBelow(g2);
    var s := Select(m1, m2, b, s1 >= s2 || equal, s2 >= s1 || equal, first);
    PlanPairsDistinct(s, size, 0);
    Plan(s, size, 0)
  }

  /** The offspring's node count, from the parents' lengths, the scores, `equal` and the draw `u`. */
  function OffspringSize(N1: Network, N2: Network, s1: real, s2: real, equal: bool, u: Unit): nat {
    Size(|N1.nodes|, |N2.nodes|, equal || s1 == s2, s1 > s2, u)
  }

  /**
    `network1.connections[0]?.constructor || network2.connections[0]?.constructor`
    is undefined when neither parent has a connection in `connections`; a
    gene then throws when its key is computed, so crossOver throws exactly
    when some parent still has a self-connection.
   */
  predicate NoConstructor(N1: Network, N2: Network) {
    N1.connections == [] && N2.connections == [] && (N1.selfconns != [] || N2.selfconns != [])
  }

  /** Some offspring position below `size` would copy an `undefined` parent node. */
  predicate MissingParent(h: Heap, N1: Network, N2: Network, size: nat, picks: nat -> bool)
    requires IdsBelow(N1.nodes, |h.nodes|) && IdsBelow(N2.nodes, |h.nodes|)
  {
    exists j | 0 <= j < size :: Parent(h, N1, N2, size, j, picks(j)).None?
  }

  lemma BuildStart(h: Heap, N1: Network, N2: Network, size: nat, picks: nat -> bool, h1: Heap, ids: seq<nat>,
                   plan: seq<Link>)
    requires Wf(h) && IdsBelow(N1.nodes, |h.nodes|) && IdsBelow(N2.nodes, |h.nodes|)
    requires Spawned(h, N1, N2, size, picks, size, h1, ids)
    requires LinksBelow(plan, size) && PairsDistinct(plan)
    ensures Built(h1, Network(N1.input, N1.output, ids, [], [], [], 0.0), plan, [])
  {
    var N := Network(N1.input, N1.output, ids, [], [], [], 0.0);
    forall p | 0 <= p < |ids|
      ensures FreshAt(h1, ids[p], h.nodes[Parent(h, N1, N2, size, p, picks(p)).value].kind, |h.conns| + p)
    {
    }
  }

  /**
    The offspring node at position `i` copies the parent node `x`: same
    bias, squash and type, no cached index.
   */
  predicate CopyOf(h: Heap, x: nat, h2: Heap, n: nat)
    requires x < |h.nodes| && n < |h2.nodes|
  {
    && h2.nodes[n].bias == h.nodes[x].bias
    && h2.nodes[n].squash == h.nodes[x].squash
    && h2.nodes[n].kind == h.nodes[x].kind
    && h2.nodes[n].index == None
  }

  /**
    What the offspring `(h2, N)` of parents N1 and N2 is: a network of the
    parents' input and output sizes whose `size` new nodes copy the parent
    nodes Parent names, and whose connections carry the inherited links
    one to one.
   */
  predicate Offspring(hs: Heap, N1: Network, N2: Network, size: nat, picks: nat -> bool, plan: seq<Link>,
                      h2: Heap, N: Network)
    requires Wf(hs) && IdsBelow(N1.nodes, |hs.nodes|) && IdsBelow(N2.nodes, |hs.nodes|) && LinksBelow(plan, size)
  {
    && Wf(h2) && Indexed(h2, N)
    && N.input == N1.input && N.output == N1.output && N.dropout == 0.0
    && |h2.nodes| == |hs.nodes| + size && |N.nodes| == size
    && (forall i | 0 <= i < size ::
          && N.nodes[i] == |hs.nodes| + i
          && Parent(hs, N1, N2, size, i, picks(i)).Some?
          && CopyOf(hs, Parent(hs, N1, N2, size, i, picks(i)).value, h2, N.nodes[i]))
    && (forall i | 0 <= i < |plan| ::
          exists c | c in N.connections + N.selfconns :: Carries(h2, N.nodes, plan[i], c))
    && (forall c | c in N.connections + N.selfconns ::
          exists i | 0 <= i < |plan| :: Carries(h2, N.nodes, plan[i], c))
    && |N.connections| + |N.selfconns| == |plan|
  }

  lemma BuildDone(hs: Heap, N1: Network, N2: Network, size: nat, picks: nat -> bool, plan: seq<Link>,
                  h1: Heap, ids: seq<nat>, h2: Heap, N: Network, made: seq<nat>)
    requires Wf(hs) && IdsBelow(N1.nodes, |hs.nodes|) && IdsBelow(N2.nodes, |hs.nodes|) && LinksBelow(plan, size)
    requires Spawned(hs, N1, N2, size, picks, size, h1, ids)
    requires Built(h2, N, plan, made) && |made| == |plan| && SameValues(h1, h2)
    requires N.nodes == ids && N.input == N1.input && N.output == N1.output && N.dropout == 0.0
    ensures Offspring(hs, N1, N2, size, picks, plan, h2, N)
  {
    DoneCopies(hs, N1, N2, size, picks, h1, ids, h2);
    FiledCover(plan, made);
    DoneCarried(h2, N, plan, made);
    DoneOnlyCarried(h2, N, plan, made);
  }

  lemma DoneCopies(hs: Heap, N1: Network, N2: Network, size: nat, picks: nat -> bool, h1: Heap, ids: seq<nat>, h2: Heap)
    requires Wf(hs) && IdsBelow(N1.nodes, |hs.nodes|) && IdsBelow(N2.nodes, |hs.nodes|)
    requires Spawned(hs, N1, N2, size, picks, size, h1, ids) && SameValues(h1, h2)
    ensures forall i | 0 <= i < size ::
      && Parent(hs, N1, N2, size, i, picks(i)).Some?
      && CopyOf(hs, Parent(hs, N1, N2, size, i, picks(i)).value, h2, ids[i])
  {
    forall i | 0 <= i < size
      ensures && Parent(hs, N1, N2, size, i, picks(i)).Some?
              && CopyOf(hs, Parent(hs, N1, N2, size, i, picks(i)).value, h2, ids[i])
    {
      assert Copied(hs, Parent(hs, N1, N2, size, i, picks(i)).value, h1, ids[i], |hs.conns| + i);
    }
  }

  lemma DoneCarried(h2: Heap, N: Network, plan: seq<Link>, made: seq<nat>)
    requires Frame(h2, N, plan, made) && AllCarried(h2, N, plan, made) && Filed(N, plan, made) && |made| == |plan|
    requires forall c :: c in made <==> c in Plain(plan, made) || c in Selfs(plan, made)
    ensures forall i | 0 <= i < |plan| :: exists c | c in N.connections + N.selfconns :: Carries(h2, N.nodes, plan[i], c)
  {
    forall i | 0 <= i < |plan|
      ensures exists c | c in N.connections + N.selfconns :: Carries(h2, N.nodes, plan[i], c)
    {
      assert made[i] in made;
      assert made[i] in N.connections + N.selfconns && Carries(h2, N.nodes, plan[i], made[i]);
    }
  }

  lemma DoneOnlyCarried(h2: Heap, N: Network, plan: seq<Link>, made: seq<nat>)
    requires Frame(h2, N, plan, made) && AllCarried(h2, N, plan, made) && Filed(N, plan, made) && |made| == |plan|
    requires forall c :: c in made <==> c in Plain(plan, made) || c in Selfs(plan, made)
    ensures forall c | c in N.connections + N.selfconns :: exists i | 0 <= i < |plan| :: Carries(h2, N.nodes, plan[i], c)
  {
    forall c | c in N.connections + N.selfconns
      ensures exists i | 0 <= i < |plan| :: Carries(h2, N.nodes, plan[i], c)
    {
      assert c in made;
      var i :| 0 <= i < |made| && made[i] == c;
      assert Carries(h2, N.nodes, plan[i], made[i]);
    }
  }

  /**
    `Network.crossOver(network1, network2, equal)` with `score1` and
    `score2` the parents' `score` fields (None when unset). Parents of
    different input or output sizes throw; copying an `undefined` parent
    node throws; parents without plain connections but with a
    self-connection throw; otherwise the result is the offspring.
   */
  function CrossOver(h: Heap, N1: Network, N2: Network, score1: Option<real>, score2: Option<real>, equal: bool,
                     u: Unit, picks: nat -> bool, first: Option<nat> -> bool): (r: Result<(Heap, Network)>)
    requires Wf(h) && Indexed(h, N1) && Indexed(h, N2)
    ensures N1.input != N2.input || N1.output != N2.output ==> r == Err(SizeMismatch)
    ensures r.Err? <==>
      || N1.input != N2.input || N1.output != N2.output
      || MissingParent(Stamped(h, N1, N2), N1, N2, OffspringSize(N1, N2, ScoreOr(score1), ScoreOr(score2), equal, u), picks)
      || NoConstructor(N1, N2)
    ensures r.Err? ==> r.error == SizeMismatch || r.error == Undefined
    ensures r.Ok? ==>
      var (s1, s2) := (ScoreOr(score1), ScoreOr(score2));
      var size := OffspringSize(N1, N2, s1, s2, equal, u);
      var hs := Stamped(h, N1, N2);
      Offspring(hs, N1, N2, size, picks, Inherited(hs, N1, N2, s1, s2, equal, first, size), r.value.0, r.value.1)
  {
    if N1.input != N2.input || N1.output != N2.output then Err(SizeMismatch)
    else
      var (s1, s2) := (ScoreOr(score1), ScoreOr(score2));
      var size := OffspringSize(N1, N2, s1, s2, equal, u);
      var hs := Stamped(h, N1, N2);
      var (h1, ids) :- Spawn(hs, N1, N2, size, picks, size);
      if NoConstructor(N1, N2) then Err(Undefined)
      else
        var plan := Inherited(hs, N1, N2, s1, s2, equal, first, size);
        var N0 := Network(N1.input, N1.output, ids, [], [], [], 0.0);
        BuildStart(hs, N1, N2, size, picks, h1, ids, plan);
        var (h2, N, made) := Build(h1, N0, plan, []);
        BuildDone(hs, N1, N2, size, picks, plan, h1, ids, h2, N, made);
        Ok((h2, N))
  }
}
