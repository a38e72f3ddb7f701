/**
  `network.mutate(method)`: the fourteen structural mutation operators.

  Every `Math.random()` the operators draw is read from a stream `us`, in
  the order the library draws them (`us(0)` first); fresh connection
  weights come from `ws` at the new connection's id and fresh biases from
  `bs` at the new node's id. An operator that finds nothing to act on only
  warns, and is a no-op here.
 */
module Mutations {
  import opened Base
  import opened Methods
  import opened Nodes
  import opened Links
  import opened Networks
  import opened NetworkLinks
  import Removal

  // ---------------------------------------------------------------- helpers

  /** The connections of `cs` from position `k` on that have no gater, in order. */
  function UngatedFrom(h: Heap, cs: seq<nat>, k: nat): (r: seq<nat>)
    requires Wf(h) && IdsBelow(cs, |h.conns|) && k <= |cs|
    ensures forall c | c in r :: c in cs && c < |h.conns| && h.conns[c].gater.None?
    ensures forall j | k <= j < |cs| && h.conns[cs[j]].gater.None? :: cs[j] in r
    decreases |cs| - k
  {
    if k == |cs| then []
    else (if h.conns[cs[k]].gater.None? then [cs[k]] else []) + UngatedFrom(h, cs, k + 1)
  }

  /** The positions from `k` on whose node has a dead (weight 0) self-connection, in order. */
  function SelflessFrom(h: Heap, ids: seq<nat>, k: nat): (r: seq<nat>)
    requires Wf(h) && IdsBelow(ids, |h.nodes|)
    ensures forall j | j in r :: k <= j < |ids| && SelfWeight(h, ids[j]) == 0.0
    ensures forall j | k <= j < |ids| && SelfWeight(h, ids[j]) == 0.0 :: j in r
    decreases |ids| - k
  {
    if k >= |ids| then []
    else (if SelfWeight(h, ids[k]) == 0.0 then [k] else []) + SelflessFrom(h, ids, k + 1)
  }

  /** The span of positions an operator that may or may not touch output nodes draws from. */
  function Span(N: Network, mutateOutput: bool): int {
    |N.nodes| - (if mutateOutput then 0 else N.output) - N.input
  }

  // ------------------------------------------------------------- MOD_WEIGHT

  /**
    MOD_WEIGHT: one connection of `connections ++ selfconns` gets a
    uniform shift in [min, max) added to its weight. With both lists empty
    the pick is `undefined` and the update throws.
   */
  function ModWeight(h: Heap, N: Network, lo: real, hi: real, us: Stream): (r: Result<(Heap, Network)>)
    requires Wf(h) && Indexed(h, N)
    ensures r.Err? <==> N.connections == [] && N.selfconns == []
    ensures r.Err? ==> r.error == Undefined
    ensures r.Ok? ==>
      var h2 := r.value.0;
      && r.value.1 == N && Wf(h2) && SameShape(h, h2) && h2.nodes == h.nodes
      && exists c | c in N.connections + N.selfconns ::
           && (forall d | 0 <= d < |h.conns| && d != c :: h2.conns[d] == h.conns[d])
           && h2.conns[c] == h.conns[c].(weight := h2.conns[c].weight)
           && (lo < hi ==> lo <= h2.conns[c].weight - h.conns[c].weight < hi)
    ensures r.Ok? && Linked(h) ==> Linked(r.value.0)
  {
    var all := N.connections + N.selfconns;
    var k := Pick(us(0), |all|);
    if k >= |all| then Err(Undefined)
    else
      var c := all[k];
      assert c in all;
      assert ConnWf(h.conns[c], |h.nodes|);
      var h2 := PutConn(h, c, h.conns[c].(weight := h.conns[c].weight + Uniform(us(1), lo, hi)));
      assert Linked(h) ==> Linked(h2) by { if Linked(h) { SameShapeLinked(h, h2); } }
      Ok((h2, N))
  }

  // --------------------------------------------------------------- MOD_BIAS

  /**
    MOD_BIAS: the node at a position drawn from [input, |nodes|) mutates
    its bias. With no node past the input block the position reads
    `undefined`, and the call on it throws.
   */
  function ModBias(h: Heap, N: Network, lo: real, hi: real, us: Stream): (r: Result<(Heap, Network)>)
    requires Wf(h) && Indexed(h, N)
    ensures r.Err? <==> |N.nodes| <= N.input
    ensures r.Err? ==> r.error == Undefined
    ensures r.Ok? ==>
      var h2 := r.value.0;
      && r.value.1 == N && Wf(h2) && SameShape(h, h2) && h2.conns == h.conns
      && exists j | N.input <= j < |N.nodes| ::
           var n := N.nodes[j];
           && (forall m | 0 <= m < |h.nodes| && m != n :: h2.nodes[m] == h.nodes[m])
           && h2.nodes[n] == h.nodes[n].(bias := h2.nodes[n].bias)
           && (lo < hi ==> lo <= h2.nodes[n].bias - h.nodes[n].bias < hi)
    ensures r.Ok? && Linked(h) ==> Linked(r.value.0)
  {
    var i := Slot(us(0), N.input, |N.nodes| - N.input);
    match At(N.nodes, i)
    case None => Err(Undefined)
    case Some(n) =>
      var h2 := Nodes.Mutate(h, n, Some(Methods.ModBias(lo, hi)), us(1)).value;
      assert N.nodes[i] == n;
      assert Linked(h) ==> Linked(h2) by { if Linked(h) { SameShapeLinked(h, h2); } }
      Ok((h2, N))
  }

  // --------------------------------------------------------- MOD_ACTIVATION

  /**
    MOD_ACTIVATION: unless every node is an input or output node and
    outputs are exempt, the node at a position drawn from the input block's
    end to the end (or to the output block with outputs exempt) moves to
    another squash of `allowed`. A draw that reads past the members finds
    `undefined`, and the call on it throws.
   */
  function ModActivation(h: Heap, N: Network, mutateOutput: bool, allowed: seq<Squash>, us: Stream)
    : (r: Result<(Heap, Network)>)
    requires Wf(h) && Indexed(h, N) && |allowed| > 0
    ensures !mutateOutput && N.input + N.output == |N.nodes| ==> r == Ok((h, N))
    ensures N.input + N.output <= |N.nodes| ==> (r.Err? <==> mutateOutput && N.input == |N.nodes|)
    ensures r.Err? ==> r.error == Undefined
    ensures r.Ok? ==> r.value.1 == N && Wf(r.value.0) && SameShape(h, r.value.0) && r.value.0.conns == h.conns
    ensures r.Ok? && Linked(h) ==> Linked(r.value.0)
    ensures r.Ok? && (mutateOutput || N.input + N.output != |N.nodes|) && N.input + N.output <= |N.nodes| ==>
      var h2 := r.value.0;
      exists j | N.input <= j < N.input + Span(N, mutateOutput) ::
           var n := N.nodes[j];
           && (forall m | 0 <= m < |h.nodes| && m != n :: h2.nodes[m] == h.nodes[m])
           && h2.nodes[n] == h.nodes[n].(squash := h2.nodes[n].squash)
           && h2.nodes[n].squash in allowed
           && (h.nodes[n].squash in allowed && |allowed| >= 2 && Distinct(allowed) ==>
                 h2.nodes[n].squash != h.nodes[n].squash)
  {
    if !mutateOutput && N.input + N.output == |N.nodes| then Ok((h, N))
    else
      var span := Span(N, mutateOutput);
      var i := Slot(us(0), N.input, span);
      match At(N.nodes, i)
      case None => Err(Undefined)
      case Some(n) =>
        var h2 := Nodes.Mutate(h, n, Some(Methods.ModActivation(mutateOutput, allowed)), us(1)).value;
        assert Linked(h) ==> Linked(h2) by { if Linked(h) { SameShapeLinked(h, h2); } }
        Ok((h2, N))
  }

  // ------------------------------------------------------------- SWAP_NODES

  /**
    SWAP_NODES: unless fewer than two candidates exist, two positions are
    drawn from the same range as MOD_ACTIVATION's and the two nodes trade
    their biases and squashes (a node drawn twice keeps its own).
   */
  function SwapNodes(h: Heap, N: Network, mutateOutput: bool, us: Stream): (r: Result<(Heap, Network)>)
    requires Wf(h) && Indexed(h, N)
    ensures r.Ok? && r.value.1 == N && Wf(r.value.0) && SameShape(h, r.value.0)
    ensures Linked(h) ==> Linked(r.value.0)
    ensures Span(N, mutateOutput) < 2 ==> r.value == (h, N)
    ensures Span(N, mutateOutput) >= 2 ==>
      var h2 := r.value.0;
      && r.value.1 == N && Wf(h2) && SameShape(h, h2) && h2.conns == h.conns
      && exists i, j | N.input <= i < N.input + Span(N, mutateOutput) && N.input <= j < N.input + Span(N, mutateOutput) ::
           var (a, b) := (N.nodes[i], N.nodes[j]);
           && (forall m | 0 <= m < |h.nodes| && m != a && m != b :: h2.nodes[m] == h.nodes[m])
           && h2.nodes[a] == h.nodes[a].(bias := h.nodes[b].bias, squash := h.nodes[b].squash)
           && h2.nodes[b] == h.nodes[b].(bias := h.nodes[a].bias, squash := h.nodes[a].squash)
  {
    var span := Span(N, mutateOutput);
    if span < 2 then Ok((h, N))
    else
      var i := Slot(us(0), N.input, span);
      var j := Slot(us(1), N.input, span);
      var (a, b) := (N.nodes[i], N.nodes[j]);
      var (x, y) := (h.nodes[a], h.nodes[b]);
      assert NodeWf(x, |h.conns|) && NodeWf(y, |h.conns|);
      var h1 := PutNode(h, a, x.(bias := y.bias, squash := y.squash));
      var h2 := PutNode(h1, b, h1.nodes[b].(bias := x.bias, squash := x.squash));
      assert Linked(h) ==> Linked(h2) by { if Linked(h) { SameShapeLinked(h, h2); } }
      Ok((h2, N))
  }

  // ------------------------------------------------------- ADD/SUB_SELF_CONN

  /**
    ADD_SELF_CONN: one node past the input block whose self-connection is
    dead gets it revived with weight 1; with none, nothing happens.
   */
  function AddSelfConn(h: Heap, N: Network, us: Stream): (r: Result<(Heap, Network)>)
    requires Wf(h) && Indexed(h, N)
    ensures r.Ok? && Wf(r.value.0) && Indexed(r.value.0, r.value.1) && r.value.1.nodes == N.nodes
    ensures r.value == (h, N) <==> forall j | N.input <= j < |N.nodes| :: SelfWeight(h, N.nodes[j]) != 0.0
    ensures r.value != (h, N) ==>
      var h2 := r.value.0;
      && h2.nodes == h.nodes && |h2.conns| == |h.conns| && |r.value.1.selfconns| == |N.selfconns| + 1
      && exists j | N.input <= j < |N.nodes| ::
           SelfWeight(h, N.nodes[j]) == 0.0 && SelfWeight(h2, N.nodes[j]) == 1.0
    ensures Linked(h) ==> Linked(r.value.0)
  {
    var ps := SelflessFrom(h, N.nodes, N.input);
    if ps == [] then Ok((h, N))
    else
      var j := ps[Pick(us(0), |ps|)];
      assert j in ps;
      var n := N.nodes[j];
      var (h2, N2, _) := Networks.Connect(h, N, n, n, None, 0.0).value;
      assert SelfWeight(h2, n) == 1.0;
      assert Linked(h) ==> Linked(h2) by { if Linked(h) { ConnectKeepsLinked(h, N, n, n, None, 0.0); } }
      Ok((h2, N2))
  }

  /**
    SUB_SELF_CONN: one entry of `selfconns` is disconnected, which zeroes
    its weight and takes it out of the list; with none, nothing happens.
   */
  function SubSelfConn(h: Heap, N: Network, us: Stream): (r: Result<(Heap, Network)>)
    requires Wf(h) && Indexed(h, N)
    ensures N.selfconns == [] ==> r == Ok((h, N))
    ensures r.Ok? ==> Wf(r.value.0) && Indexed(r.value.0, r.value.1) && r.value.1.nodes == N.nodes
    ensures r.Ok? ==> |r.value.0.nodes| == |h.nodes|
    ensures r.Err? ==> r.error == NotGated || r.error == Undefined
    ensures r.Ok? && Linked(h) ==> Linked(r.value.0)
    ensures r.Ok? && N.selfconns != [] ==>
      exists k | 0 <= k < |N.selfconns| ::
        var c := h.conns[N.selfconns[k]];
        && c.from < |r.value.0.nodes|
        && (c.from == c.to ==> SelfWeight(r.value.0, c.from) == 0.0 && |r.value.1.selfconns| == |N.selfconns| - 1)
  {
    if N.selfconns == [] then Ok((h, N))
    else
      var k := Pick(us(0), |N.selfconns|);
      var c := h.conns[N.selfconns[k]];
      assert ConnWf(c, |h.nodes|);
      assert c.from == c.to ==> FindEdge(h, N.selfconns, c.from, c.to) <= k;
      var r := Networks.Disconnect(h, N, c.from, c.to);
      assert r.Ok? && Linked(h) ==> Linked(r.value.0) by {
        if r.Ok? && Linked(h) { DisconnectKeepsLinked(h, N, c.from, c.to); }
      }
      r
  }

  // ------------------------------------------------------- ADD/SUB_GATE

  /**
    ADD_GATE: when some connection of `connections ++ selfconns` has no
    gater, a node is drawn from [input, |nodes|) and gates one of them
    (drawn second). A draw past the members is `undefined`, which is not a
    member, so `gate` throws.
   */
  function AddGate(h: Heap, N: Network, us: Stream): (r: Result<(Heap, Network)>)
    requires Wf(h) && Indexed(h, N)
    ensures r == Ok((h, N)) <==>
      forall k | 0 <= k < |N.connections + N.selfconns| :: h.conns[(N.connections + N.selfconns)[k]].gater.Some?
    ensures r.Ok? && Linked(h) ==> Linked(r.value.0)
    ensures r.Err? ==> r.error == NotMember
    ensures r.Ok? ==> Wf(r.value.0) && Indexed(r.value.0, r.value.1) && r.value.1.nodes == N.nodes
    ensures r.Ok? && r.value != (h, N) ==>
      exists j, c | N.input <= j < |N.nodes| && c in N.connections + N.selfconns ::
        && h.conns[c].gater.None? && c < |r.value.0.conns|
        && r.value.0.conns[c].gater == Some(N.nodes[j])
        && r.value.1 == N.(gates := N.gates + [c])
  {
    var all := N.connections + N.selfconns;
    var ps := UngatedFrom(h, all, 0);
    if ps == [] then Ok((h, N))
    else
      var i := Slot(us(0), N.input, |N.nodes| - N.input);
      var c := ps[Pick(us(1), |ps|)];
      assert c in ps;
      assert exists k | 0 <= k < |all| :: h.conns[all[k]].gater.None? by {
        var k :| 0 <= k < |all| && all[k] == c;
      }
      match At(N.nodes, i)
      case None => Err(NotMember)
      case Some(g) =>
        var r := Networks.Gate(h, N, g, c);
        assert r.Ok? ==> |r.value.1.gates| == |N.gates| + 1;
        assert r.Ok? && Linked(h) ==> Linked(r.value.0) by {
          if r.Ok? && Linked(h) { GateKeepsLinked(h, N, g, c); }
        }
        r
  }

  /** SUB_GATE: one entry of `gates` is ungated; with none, nothing happens. */
  function SubGate(h: Heap, N: Network, us: Stream): (r: Result<(Heap, Network)>)
    requires Wf(h) && Indexed(h, N)
    ensures N.gates == [] <==> r == Ok((h, N))
    ensures r.Err? ==> r.error == Undefined
    ensures r.Ok? && Linked(h) ==> Linked(r.value.0)
    ensures r.Ok? ==> Wf(r.value.0) && Indexed(r.value.0, r.value.1) && r.value.1.nodes == N.nodes
    ensures r.Ok? && N.gates != [] ==>
      exists k | 0 <= k < |N.gates| ::
        && N.gates[k] < |r.value.0.conns|
        && r.value.0.conns[N.gates[k]].gater.None?
        && r.value.1.gates == RemoveAt(N.gates, IndexOf(N.gates, N.gates[k]))
  {
    if N.gates == [] then Ok((h, N))
    else
      var k := Pick(us(0), |N.gates|);
      var r := Networks.Ungate(h, N, N.gates[k]);
      assert r.Ok? ==> Indexed(r.value.0, r.value.1) && |r.value.1.gates| == |N.gates| - 1 by {
        if r.Ok? { UngateIndexed(h, N, N.gates[k]); }
      }
      assert r.Ok? && Linked(h) ==> Linked(r.value.0) by {
        if r.Ok? && Linked(h) { UngateKeepsLinked(h, N, N.gates[k]); }
      }
      r
  }

  // ------------------------------------------------------------ projections

  /**
    A step that keeps the outgoing connections of `a` (and where they
    lead), adds to them only connections aimed away from `b`, and keeps
    whether the self weight of `a` is zero, keeps whether `a` projects to `b`.
   */
  lemma ProjectionFrame(h: Heap, h2: Heap, a: nat, b: nat)
    requires Wf(h) && Wf(h2) && a < |h.nodes| <= |h2.nodes|
    requires forall i | 0 <= i < |h.nodes[a].outConns| ::
      h.nodes[a].outConns[i] in h2.nodes[a].outConns && h2.conns[h.nodes[a].outConns[i]].to == h.conns[h.nodes[a].outConns[i]].to
    requires forall c | c in h2.nodes[a].outConns && c !in h.nodes[a].outConns :: h2.conns[c].to != b
    requires (SelfWeight(h2, a) == 0.0) == (SelfWeight(h, a) == 0.0)
    ensures IsProjectingTo(h2, a, b) == IsProjectingTo(h, a, b)
  {
    var outs := h.nodes[a].outConns;
    assert NodeWf(h.nodes[a], |h.conns|) && NodeWf(h2.nodes[a], |h2.conns|);
    if IsProjectingTo(h, a, b) && !(a == b && SelfWeight(h, a) != 0.0) {
      var c :| c in outs && h.conns[c].to == b;
      var i :| 0 <= i < |outs| && outs[i] == c;
      assert c in h2.nodes[a].outConns && h2.conns[c].to == b;
    }
    if IsProjectingTo(h2, a, b) && !(a == b && SelfWeight(h2, a) != 0.0) {
      var c :| c in h2.nodes[a].outConns && h2.conns[c].to == b;
      var i :| 0 <= i < |outs| && outs[i] == c;
      assert h.conns[c].to == b;
    }
  }

  /** Under linkage a node has one outgoing connection per target, so disconnecting it ends the projection. */
  lemma DisconnectOneUnprojects(h: Heap, a: nat, b: nat)
    requires Linked(h) && a < |h.nodes| && b < |h.nodes| && a != b
    ensures !IsProjectingTo(DisconnectOne(h, a, b), a, b)
  {
    var r := DisconnectOne(h, a, b);
    var outs := h.nodes[a].outConns;
    assert NodeLinked(h, a) && NodeWf(h.nodes[a], |h.conns|);
    var i := FirstTo(h, outs, b);
    if i == |outs| {
      forall c | c in r.nodes[a].outConns ensures r.conns[c].to != b {
        var k :| 0 <= k < |outs| && outs[k] == c;
      }
    } else {
      var rest := RemoveAt(outs, i);
      forall c | c in r.nodes[a].outConns ensures r.conns[c].to != b {
        var k :| 0 <= k < |rest| && rest[k] == c;
        var k' := if k < i then k else k + 1;
        assert c == outs[k'] && k' != i;
        assert h.conns[outs[k']].to != h.conns[outs[i]].to by {
          if k' < i { assert TargetsUnique(h, a); } else { assert TargetsUnique(h, a); }
        }
        assert c != outs[i];
      }
    }
  }

  /** `network.disconnect` between distinct nodes ends their projection, under linkage. */
  lemma DisconnectUnprojects(h: Heap, N: Network, a: nat, b: nat)
    requires Linked(h) && a < |h.nodes| && b < |h.nodes| && a != b
    requires IdsBelow(N.connections, |h.conns|) && IdsBelow(N.selfconns, |h.conns|)
    requires Networks.Disconnect(h, N, a, b).Ok?
    ensures !IsProjectingTo(Networks.Disconnect(h, N, a, b).value.0, a, b)
  {
    var i := FindEdge(h, N.connections, a, b);
    if i < |N.connections| && h.conns[N.connections[i]].gater.Some? {
      UngateKeepsLinked(h, N, N.connections[i]);
      DisconnectOneUnprojects(Networks.Ungate(h, N, N.connections[i]).value.0, a, b);
    } else {
      DisconnectOneUnprojects(h, a, b);
    }
  }

  // ---------------------------------------------------- ADD/SUB_(BACK_)CONN

  /** The position range ADD_CONN (forward) or ADD_BACK_CONN (back) draws its source from. */
  predicate SourceSlot(N: Network, back: bool, i: int) {
    if back then N.input <= i < |N.nodes| else 0 <= i < |N.nodes| - N.output
  }

  /** The first target position tried for source position `i`. */
  function TargetStart(N: Network, back: bool, i: nat): nat {
    if back then N.input else if i + 1 < N.input then N.input else i + 1
  }

  /** Where the targets for source position `i` stop. */
  function TargetEnd(N: Network, back: bool, i: nat): nat {
    if back then i else |N.nodes|
  }

  /**
    Position pair (i, j) is a candidate: i is a source slot, j lies in its
    target range (after i and past the inputs going forward, between the
    inputs and i going back), and the node at i does not yet project to
    the node at j.
   */
  predicate Open(h: Heap, N: Network, back: bool, i: nat, j: nat)
    requires Wf(h) && IdsBelow(N.nodes, |h.nodes|)
  {
    && SourceSlot(N, back, i) && TargetStart(N, back, i) <= j < TargetEnd(N, back, i) && j < |N.nodes|
    && !IsProjectingTo(h, N.nodes[i], N.nodes[j])
  }

  /** The candidates with source position `i` and target position from `j` on, in order. */
  function OpenRow(h: Heap, N: Network, back: bool, i: nat, j: nat): (r: seq<(nat, nat)>)
    requires Wf(h) && IdsBelow(N.nodes, |h.nodes|)
    ensures forall p | p in r :: p.0 == i && j <= p.1 && Open(h, N, back, p.0, p.1)
    ensures forall q: nat | j <= q && Open(h, N, back, i, q) :: (i, q) in r
    decreases |N.nodes| - j
  {
    if !SourceSlot(N, back, i) || j >= TargetEnd(N, back, i) || j >= |N.nodes| then []
    else
      var here := if TargetStart(N, back, i) <= j && !IsProjectingTo(h, N.nodes[i], N.nodes[j]) then [(i, j)] else [];
      here + OpenRow(h, N, back, i, j + 1)
  }

  /** The candidates with source position from `i` on, source-major as the nested loops list them. */
  function OpenFrom(h: Heap, N: Network, back: bool, i: nat): (r: seq<(nat, nat)>)
    requires Wf(h) && IdsBelow(N.nodes, |h.nodes|)
    ensures forall p | p in r :: i <= p.0 && Open(h, N, back, p.0, p.1)
    ensures forall a: nat, b: nat | i <= a && Open(h, N, back, a, b) :: (a, b) in r
    decreases |N.nodes| - i
  {
    if i >= |N.nodes| then []
    else OpenRow(h, N, back, i, TargetStart(N, back, i)) + OpenFrom(h, N, back, i + 1)
  }

  /**
    ADD_CONN (forward) and ADD_BACK_CONN (back): among the position pairs
    `Open` admits, one is drawn and connected; with none, nothing happens.
   */
  function AddConn(h: Heap, N: Network, back: bool, us: Stream, ws: nat -> real): (r: (Heap, Network))
    requires Wf(h) && Indexed(h, N)
    ensures Wf(r.0) && Indexed(r.0, r.1) && r.1.nodes == N.nodes && |r.0.nodes| == |h.nodes|
    ensures r == (h, N) <==> forall i: nat, j: nat :: !Open(h, N, back, i, j)
    ensures r != (h, N) ==>
      exists i: nat, j: nat | Open(h, N, back, i, j) ::
        && IsProjectingTo(r.0, N.nodes[i], N.nodes[j])
        && (N.nodes[i] != N.nodes[j] ==> r.1 == N.(connections := N.connections + [|h.conns|]))
    ensures Linked(h) ==> Linked(r.0) && KeepsProjections(h, r.0)
  {
    var ps := OpenFrom(h, N, back, 0);
    if ps == [] then
      assert forall i: nat, j: nat :: !Open(h, N, back, i, j);
      (h, N)
    else
      var (i, j) := ps[Pick(us(0), |ps|)];
      assert (i, j) in ps;
      var (a, b) := (N.nodes[i], N.nodes[j]);
      var (h2, N2, _) := Networks.Connect(h, N, a, b, None, ws(|h.conns|)).value;
      assert Linked(h) ==> Linked(h2) && KeepsProjections(h, h2) by {
        if Linked(h) {
          ConnectKeepsLinked(h, N, a, b, None, ws(|h.conns|));
          ConnectKeepsWiring(h, N, a, b, None, ws(|h.conns|));
          WiringKeepsProjections(h, h2, None);
        }
      }
      assert (h2, N2) != (h, N) by {
        if a != b { assert |N2.connections| == |N.connections| + 1; }
        else { assert |N2.selfconns| == |N.selfconns| + 1; }
      }
      (h2, N2)
  }

  /**
    Position `k` of `connections` may go under SUB_CONN (forward) or
    SUB_BACK_CONN (back): its source keeps another outgoing connection, its
    target another incoming one, and the target stands after (forward) or
    before (back) the source in the member list.
   */
  predicate Removable(h: Heap, N: Network, back: bool, k: nat)
    requires Wf(h) && IdsBelow(N.connections, |h.conns|)
  {
    k < |N.connections| &&
    var c := h.conns[N.connections[k]];
    && |h.nodes[c.from].outConns| > 1 && |h.nodes[c.to].inConns| > 1
    && (if back then IndexOf(N.nodes, c.from) > IndexOf(N.nodes, c.to)
        else IndexOf(N.nodes, c.to) > IndexOf(N.nodes, c.from))
  }

  /** The removable positions from `k` on, in order. */
  function RemovableFrom(h: Heap, N: Network, back: bool, k: nat): (r: seq<nat>)
    requires Wf(h) && IdsBelow(N.connections, |h.conns|)
    ensures forall j | j in r :: k <= j && Removable(h, N, back, j)
    ensures forall j: nat | k <= j && Removable(h, N, back, j) :: j in r
    decreases |N.connections| - k
  {
    if k >= |N.connections| then []
    else (if Removable(h, N, back, k) then [k] else []) + RemovableFrom(h, N, back, k + 1)
  }

  /**
    SUB_CONN (forward) and SUB_BACK_CONN (back): one removable connection
    is drawn and its endpoints disconnected; with none, nothing happens.
   */
  function SubConn(h: Heap, N: Network, back: bool, us: Stream): (r: Result<(Heap, Network)>)
    requires Wf(h) && Indexed(h, N)
    ensures (forall k: nat :: !Removable(h, N, back, k)) ==> r == Ok((h, N))
    ensures r.Ok? ==> Wf(r.value.0) && Indexed(r.value.0, r.value.1) && r.value.1.nodes == N.nodes
    ensures r.Ok? ==> |r.value.0.nodes| == |h.nodes|
    ensures r.Err? ==> r.error == NotGated || r.error == Undefined
    ensures r.Ok? && Linked(h) ==> Linked(r.value.0)
    ensures r.Ok? && r.value != (h, N) && Linked(h) ==>
      exists k: nat | Removable(h, N, back, k) ::
        var c := h.conns[N.connections[k]];
        c.from != c.to ==> !IsProjectingTo(r.value.0, c.from, c.to)
  {
    var ks := RemovableFrom(h, N, back, 0);
    if ks == [] then Ok((h, N))
    else
      var k := ks[Pick(us(0), |ks|)];
      assert k in ks;
      var c := h.conns[N.connections[k]];
      assert ConnWf(c, |h.nodes|);
      var r := Networks.Disconnect(h, N, c.from, c.to);
      assert r.Ok? && Linked(h) ==> Linked(r.value.0) && (c.from != c.to ==> !IsProjectingTo(r.value.0, c.from, c.to)) by {
        if r.Ok? && Linked(h) {
          DisconnectKeepsLinked(h, N, c.from, c.to);
          if c.from != c.to { DisconnectUnprojects(h, N, c.from, c.to); }
        }
      }
      r
  }

  // --------------------------------------------------------------- SUB_NODE

  /**
    SUB_NODE: unless only input and output nodes are left, the node at a
    position drawn from the hidden block is removed (reclaiming gaters when
    `keepGates`, the fresh connections weighted from `ws`, the regating
    draws from `us` after the first).
   */
  function SubNode(h: Heap, N: Network, keepGates: bool, us: Stream, ws: nat -> real): (r: Result<(Heap, Network)>)
    requires Wf(h) && Indexed(h, N)
    ensures |N.nodes| == N.input + N.output ==> r == Ok((h, N))
    ensures r.Ok? ==> Wf(r.value.0) && Indexed(r.value.0, r.value.1) && |r.value.0.nodes| == |h.nodes|
    ensures r.Ok? && Linked(h) ==> Linked(r.value.0)
    ensures r.Ok? && |N.nodes| != N.input + N.output ==> |r.value.1.nodes| == |N.nodes| - 1
    ensures r.Ok? && N.input + N.output < |N.nodes| ==>
      exists j | N.input <= j < |N.nodes| - N.output ::
        && r.value.1.nodes == RemoveAt(N.nodes, IndexOf(N.nodes, N.nodes[j]))
        && (Linked(h) ==> r.value.0.nodes[N.nodes[j]].gated == [])
  {
    if |N.nodes| == N.input + N.output then Ok((h, N))
    else
      var i := Slot(us(0), N.input, |N.nodes| - N.output - N.input);
      match At(N.nodes, i)
      case None => Err(NodeAbsent)
      case Some(n) =>
        var r := Removal.Remove(h, N, n, keepGates, ws, (k: nat) => us(k + 1));
        assert r.Ok? ==> Indexed(r.value.0, r.value.1) by {
          if r.Ok? { RemoveAtIds(N.nodes, IndexOf(N.nodes, n), |h.nodes|); }
        }
        r
  }

  // --------------------------------------------------------------- ADD_NODE

  /** A fresh hidden node with bias `bias`, its squash moved on once from the default. */
  function Fresh(h: Heap, bias: real, u: Unit): (r: Heap)
    requires Wf(h)
    ensures Wf(r) && |r.nodes| == |h.nodes| + 1 && |r.conns| == |h.conns| + 1
    ensures forall m | 0 <= m < |h.nodes| :: r.nodes[m] == h.nodes[m]
    ensures forall c | 0 <= c < |h.conns| :: r.conns[c] == h.conns[c]
    ensures r.nodes[|h.nodes|].kind == Hidden && r.nodes[|h.nodes|].bias == bias
    ensures r.nodes[|h.nodes|].squash in Allowed && r.nodes[|h.nodes|].squash != Logistic
    ensures r.nodes[|h.nodes|].outConns == [] && SelfWeight(r, |h.nodes|) == 0.0
    ensures Linked(h) ==> Linked(r)
  {
    var (h1, n) := NewNode(h, Some(Hidden), bias);
    AllowedIsRegistry();
    var h2 := Nodes.Mutate(h1, n, Some(ModActivationDefault), u).value;
    assert Linked(h) ==> Linked(h2) by {
      if Linked(h) { NewNodeLinked(h, Some(Hidden), bias); SameShapeLinked(h1, h2); }
    }
    h2
  }

  /** No node of `h` projects to a node appended after them. */
  lemma FreshUnreached(h: Heap, h2: Heap)
    requires Wf(h) && Wf(h2) && |h2.nodes| == |h.nodes| + 1 && |h.conns| <= |h2.conns|
    requires forall m | 0 <= m < |h.nodes| :: h2.nodes[m] == h.nodes[m]
    requires forall c | 0 <= c < |h.conns| :: h2.conns[c] == h.conns[c]
    ensures forall m | 0 <= m < |h.nodes| :: !IsProjectingTo(h2, m, |h.nodes|)
  {
    forall m | 0 <= m < |h.nodes| ensures !IsProjectingTo(h2, m, |h.nodes|) {
      assert NodeWf(h.nodes[m], |h.conns|);
      forall c | c in h2.nodes[m].outConns ensures h2.conns[c].to != |h.nodes| {
        var k :| 0 <= k < |h.nodes[m].outConns| && h.nodes[m].outConns[k] == c;
        assert ConnWf(h.conns[c], |h.nodes|);
      }
    }
  }

  /**
    Where ADD_NODE files the fresh node `n`: before the node `b` or before
    the output block, whichever comes first.
   */
  function Place(nodes: seq<nat>, output: nat, b: nat, n: nat): (r: seq<nat>)
    ensures |r| == |nodes| + 1 && n in r && forall m | m in r :: m in nodes || m == n
    ensures IdsBelow(nodes, n) ==> IdsBelow(r, n + 1)
    ensures b in nodes && output <= |nodes| ==>
      exists p | 0 <= p <= |nodes| - output :: r == nodes[..p] + [n] + nodes[p..]
  {
    var t := IndexOf(nodes, b);
    var at := if t <= |nodes| - output then t else |nodes| - output;
    var r := SpliceIn(nodes, at, n);
    assert r[JsStart(at, |nodes|)] == n;
    assert b in nodes && output <= |nodes| ==> r == nodes[..at] + [n] + nodes[at..];
    assert IdsBelow(nodes, n) ==> IdsBelow(r, n + 1) by {
      if IdsBelow(nodes, n) {
        forall i | 0 <= i < |r| ensures r[i] < n + 1 {
          assert r[i] in r;
          if r[i] != n { var k :| 0 <= k < |nodes| && nodes[k] == r[i]; }
        }
      }
    }
    r
  }

  /** Connection `k` of `h` runs from `a` to `b` and has no gater. */
  predicate Edge(h: Heap, k: nat, a: nat, b: nat) {
    k < |h.conns| && h.conns[k].from == a && h.conns[k].to == b && h.conns[k].gater.None?
  }

  /** Among the nodes of `h`, `h2` projects exactly where `h` does, except possibly from `a` to `b`. */
  predicate ProjectsAsBut(h: Heap, h2: Heap, a: nat, b: nat)
    requires Wf(h) && Wf(h2) && |h.nodes| <= |h2.nodes|
  {
    forall x, y | 0 <= x < |h.nodes| && 0 <= y < |h.nodes| && (x, y) != (a, b) ::
      IsProjectingTo(h2, x, y) == IsProjectingTo(h, x, y)
  }

  /**
    One connection of ADD_NODE: `a` connects to `b`, which it did not
    project to, and no other projection among the nodes changes.
   */
  function Hop(h: Heap, N: Network, a: nat, b: nat, w: real): (r: (Heap, Network))
    requires Wf(h) && Indexed(h, N) && a < |h.nodes| && b < |h.nodes| && a != b && !IsProjectingTo(h, a, b)
    ensures Wf(r.0) && Indexed(r.0, r.1) && r.1 == N.(connections := N.connections + [|h.conns|])
    ensures |r.0.nodes| == |h.nodes| && |r.0.conns| == |h.conns| + 1
    ensures forall c | 0 <= c < |h.conns| :: r.0.conns[c] == h.conns[c]
    ensures Edge(r.0, |h.conns|, a, b) && IsProjectingTo(r.0, a, b)
    ensures ProjectsAsBut(h, r.0, a, b)
    ensures Linked(h) ==> Linked(r.0)
  {
    var (h2, N2, _) := Networks.Connect(h, N, a, b, None, w).value;
    forall x, y | 0 <= x < |h.nodes| && 0 <= y < |h.nodes| && (x, y) != (a, b)
      ensures IsProjectingTo(h2, x, y) == IsProjectingTo(h, x, y)
    {
      ProjectionFrame(h, h2, x, y);
    }
    assert Linked(h) ==> Linked(h2) by {
      if Linked(h) { ConnectKeepsLinked(h, N, a, b, None, w); }
    }
    (h2, N2)
  }

  /**
    The end of ADD_NODE: `a` connects to the fresh node `n` and `n` to `b`,
    each new connection weighted from `ws` at its id.
   */
  function Bridge(h: Heap, N: Network, a: nat, n: nat, b: nat, ws: nat -> real): (r: (Heap, Network))
    requires Wf(h) && Indexed(h, N) && a < |h.nodes| && n < |h.nodes| && b < |h.nodes|
    requires a != n && b != n && !IsProjectingTo(h, a, n) && !IsProjectingTo(h, n, b)
    ensures Wf(r.0) && Indexed(r.0, r.1) && r.1 == N.(connections := N.connections + [|h.conns|] + [|h.conns| + 1])
    ensures |r.0.nodes| == |h.nodes| && |r.0.conns| == |h.conns| + 2
    ensures forall c | 0 <= c < |h.conns| :: r.0.conns[c] == h.conns[c]
    ensures Linked(h) ==> Linked(r.0)
  {
    var (h1, N1) := Hop(h, N, a, n, ws(|h.conns|));
    assert !IsProjectingTo(h1, n, b) by { assert ProjectsAsBut(h, h1, a, n); }
    Hop(h1, N1, n, b, ws(|h1.conns|))
  }

  /** After the bridge the new connections are `a` to `n` and `n` to `b`, both ungated. */
  lemma BridgeEdges(h: Heap, N: Network, a: nat, n: nat, b: nat, ws: nat -> real)
    requires Wf(h) && Indexed(h, N) && a < |h.nodes| && n < |h.nodes| && b < |h.nodes|
    requires a != n && b != n && !IsProjectingTo(h, a, n) && !IsProjectingTo(h, n, b)
    ensures var h2 := Bridge(h, N, a, n, b, ws).0;
      Edge(h2, |h.conns|, a, n) && Edge(h2, |h.conns| + 1, n, b)
  {
    var (h1, N1) := Hop(h, N, a, n, ws(|h.conns|));
    assert !IsProjectingTo(h1, n, b) by { assert ProjectsAsBut(h, h1, a, n); }
    var (h2, N2) := Hop(h1, N1, n, b, ws(|h1.conns|));
    assert Edge(h2, |h.conns|, a, n);
  }

  /** After the bridge `a` projects to `n` and `n` to `b`, and `a` projects to `b` just when it did before. */
  lemma BridgeProjects(h: Heap, N: Network, a: nat, n: nat, b: nat, ws: nat -> real)
    requires Wf(h) && Indexed(h, N) && a < |h.nodes| && n < |h.nodes| && b < |h.nodes|
    requires a != n && b != n && !IsProjectingTo(h, a, n) && !IsProjectingTo(h, n, b)
    ensures var h2 := Bridge(h, N, a, n, b, ws).0;
      && IsProjectingTo(h2, a, n) && IsProjectingTo(h2, n, b)
      && IsProjectingTo(h2, a, b) == IsProjectingTo(h, a, b)
  {
    var (h1, N1) := Hop(h, N, a, n, ws(|h.conns|));
    assert !IsProjectingTo(h1, n, b) by { assert ProjectsAsBut(h, h1, a, n); }
    var (h2, N2) := Hop(h1, N1, n, b, ws(|h1.conns|));
    ChainProjects(h, h1, h2, a, n, b);
  }

  lemma ChainProjects(h: Heap, h1: Heap, h2: Heap, a: nat, n: nat, b: nat)
    requires Wf(h) && Wf(h1) && Wf(h2) && |h.nodes| == |h1.nodes| == |h2.nodes|
    requires a < |h.nodes| && n < |h.nodes| && b < |h.nodes| && a != n && b != n
    requires ProjectsAsBut(h, h1, a, n) && ProjectsAsBut(h1, h2, n, b)
    ensures IsProjectingTo(h2, a, n) == IsProjectingTo(h1, a, n)
    ensures IsProjectingTo(h2, a, b) == IsProjectingTo(h, a, b)
  {
  }

  /** A gate step keeps every projection, in both directions. */
  lemma GateSameProjections(h: Heap, N: Network, g: nat, c: nat, x: nat, y: nat)
    requires Wf(h) && g < |h.nodes| && c < |h.conns| && x < |h.nodes|
    requires Networks.Gate(h, N, g, c).Ok?
    ensures IsProjectingTo(Networks.Gate(h, N, g, c).value.0, x, y) == IsProjectingTo(h, x, y)
  {
    var h2 := Networks.Gate(h, N, g, c).value.0;
    assert h2.nodes[x].outConns == h.nodes[x].outConns && h2.nodes[x].selfConn == h.nodes[x].selfConn;
    assert NodeWf(h.nodes[x], |h.conns|);
    ProjectionFrame(h, h2, x, y);
  }

  /** With gater `g`, exactly one of connections `c1` and `c2` carries it; without, neither is gated. */
  predicate GatesOne(h: Heap, c1: nat, c2: nat, g: Option<nat>)
    requires c1 < |h.conns| && c2 < |h.conns|
  {
    if g.None? then h.conns[c1].gater.None? && h.conns[c2].gater.None?
    else (h.conns[c1].gater == g && h.conns[c2].gater.None?) || (h.conns[c1].gater.None? && h.conns[c2].gater == g)
  }

  /**
    What ADD_NODE builds once the split connection is gone: the fresh
    hidden node `n` filed by `Place`, the connections `a` to `n` and `n` to
    `b` (ids after `n`'s self-connection), one of them gated by `g` if
    the split connection had that gater, and no other projection among
    `a` and `b` changed.
   */
  predicate Grown(h: Heap, N: Network, a: nat, b: nat, g: Option<nat>, h2: Heap, N2: Network)
    requires Wf(h) && Wf(h2) && a < |h.nodes| && b < |h.nodes|
  {
    var n := |h.nodes|;
    var (c1, c2) := (|h.conns| + 1, |h.conns| + 2);
    && |h2.nodes| == n + 1 && |h2.conns| == |h.conns| + 3
    && h2.nodes[n].kind == Hidden
    && N2.nodes == Place(N.nodes, N.output, b, n)
    && |N2.connections| == |N.connections| + 2
    && h2.conns[c1].from == a && h2.conns[c1].to == n
    && h2.conns[c2].from == n && h2.conns[c2].to == b
    && GatesOne(h2, c1, c2, g)
    && IsProjectingTo(h2, a, n) && IsProjectingTo(h2, n, b)
    && IsProjectingTo(h2, a, b) == IsProjectingTo(h, a, b)
  }

  /** The ungated part of ADD_NODE after the cut: a fresh node bridged between `a` and `b`. */
  function Insert(h: Heap, N: Network, a: nat, b: nat, bias: real, u: Unit, ws: nat -> real): (r: (Heap, Network))
    requires Wf(h) && Indexed(h, N) && a < |h.nodes| && b < |h.nodes|
    ensures Wf(r.0) && Indexed(r.0, r.1)
    ensures Linked(h) ==> Linked(r.0)
  {
    var n := |h.nodes|;
    var h1 := Fresh(h, bias, u);
    FreshUnreached(h, h1);
    Bridge(h1, N.(nodes := Place(N.nodes, N.output, b, n)), a, n, b, ws)
  }

  /** The sizes and the filing of the node `Insert` adds. */
  lemma InsertShape(h: Heap, N: Network, a: nat, b: nat, bias: real, u: Unit, ws: nat -> real)
    requires Wf(h) && Indexed(h, N) && a < |h.nodes| && b < |h.nodes|
    ensures var (h2, N2) := Insert(h, N, a, b, bias, u, ws);
      && |h2.nodes| == |h.nodes| + 1 && |h2.conns| == |h.conns| + 3
      && h2.nodes[|h.nodes|].kind == Hidden
      && N2.nodes == Place(N.nodes, N.output, b, |h.nodes|)
      && |N2.connections| == |N.connections| + 2
  {
    var n := |h.nodes|;
    var h1 := Fresh(h, bias, u);
    FreshUnreached(h, h1);
    var (h2, N2) := Bridge(h1, N.(nodes := Place(N.nodes, N.output, b, n)), a, n, b, ws);
    assert h2.nodes[n].kind == h1.nodes[n].kind;
  }

  /** The two connections `Insert` adds, both ungated. */
  lemma InsertEdges(h: Heap, N: Network, a: nat, b: nat, bias: real, u: Unit, ws: nat -> real)
    requires Wf(h) && Indexed(h, N) && a < |h.nodes| && b < |h.nodes|
    ensures var h2 := Insert(h, N, a, b, bias, u, ws).0;
      && Edge(h2, |h.conns| + 1, a, |h.nodes|) && Edge(h2, |h.conns| + 2, |h.nodes|, b)
  {
    var n := |h.nodes|;
    var h1 := Fresh(h, bias, u);
    FreshUnreached(h, h1);
    BridgeEdges(h1, N.(nodes := Place(N.nodes, N.output, b, n)), a, n, b, ws);
  }

  /** After `Insert`, `a` projects to the new node and the new node to `b`, and `a` to `b` just as before. */
  lemma InsertProjects(h: Heap, N: Network, a: nat, b: nat, bias: real, u: Unit, ws: nat -> real)
    requires Wf(h) && Indexed(h, N) && a < |h.nodes| && b < |h.nodes|
    ensures var h2 := Insert(h, N, a, b, bias, u, ws).0;
      && IsProjectingTo(h2, a, |h.nodes|) && IsProjectingTo(h2, |h.nodes|, b)
      && IsProjectingTo(h2, a, b) == IsProjectingTo(h, a, b)
  {
    var n := |h.nodes|;
    var h1 := Fresh(h, bias, u);
    FreshUnreached(h, h1);
    assert IsProjectingTo(h1, a, b) == IsProjectingTo(h, a, b) by {
      assert h1.nodes[a] == h.nodes[a] && NodeWf(h.nodes[a], |h.conns|);
      ProjectionFrame(h, h1, a, b);
    }
    BridgeProjects(h1, N.(nodes := Place(N.nodes, N.output, b, n)), a, n, b, ws);
  }

  /** What `Insert` builds is `Grown` with no gater. */
  lemma InsertGrown(h: Heap, N: Network, a: nat, b: nat, bias: real, u: Unit, ws: nat -> real)
    requires Wf(h) && Indexed(h, N) && a < |h.nodes| && b < |h.nodes|
    ensures var (h2, N2) := Insert(h, N, a, b, bias, u, ws);
      Grown(h, N, a, b, None, h2, N2)
  {
    InsertShape(h, N, a, b, bias, u, ws);
    InsertEdges(h, N, a, b, bias, u, ws);
    InsertProjects(h, N, a, b, bias, u, ws);
  }

  /** Gating one of the two fresh connections of a `Grown` result by `g` gives `Grown` with gater `g`. */
  lemma GateGrown(h: Heap, N: Network, a: nat, b: nat, g: nat, half: nat, h2: Heap, N2: Network)
    requires Wf(h) && Wf(h2) && a < |h.nodes| && b < |h.nodes| && g < |h.nodes|
    requires half == |h.conns| + 1 || half == |h.conns| + 2
    requires Grown(h, N, a, b, None, h2, N2)
    requires Networks.Gate(h2, N2, g, half).Ok?
    ensures var (h3, N3) := Networks.Gate(h2, N2, g, half).value;
      Wf(h3) && Grown(h, N, a, b, Some(g), h3, N3)
  {
    GateSameProjections(h2, N2, g, half, a, |h.nodes|);
    GateSameProjections(h2, N2, g, half, |h.nodes|, b);
    GateSameProjections(h2, N2, g, half, a, b);
  }

  /** ADD_NODE after the cut: the fresh node, then the former gater (if any) gates one half, picked by `u2`. */
  function Grow(h: Heap, N: Network, a: nat, b: nat, g: Option<nat>, bias: real, u1: Unit, u2: Unit, ws: nat -> real)
    : (r: Result<(Heap, Network)>)
    requires Wf(h) && Indexed(h, N) && a < |h.nodes| && b < |h.nodes| && (g.Some? ==> g.value < |h.nodes|)
    ensures r.Err? <==> g.Some? && g.value !in N.nodes
    ensures r.Err? ==> r.error == NotMember
    ensures r.Ok? ==> Wf(r.value.0) && Indexed(r.value.0, r.value.1) && Grown(h, N, a, b, g, r.value.0, r.value.1)
    ensures r.Ok? && Linked(h) ==> Linked(r.value.0)
  {
    var (h2, N2) := Insert(h, N, a, b, bias, u1, ws);
    InsertGrown(h, N, a, b, bias, u1, ws);
    if g.None? then Ok((h2, N2))
    else
      var half := if u2 >= 0.5 then |h.conns| + 1 else |h.conns| + 2;
      var r := Networks.Gate(h2, N2, g.value, half);
      assert g.value in N2.nodes <==> g.value in N.nodes;
      assert r.Ok? ==> Grown(h, N, a, b, g, r.value.0, r.value.1) by {
        if r.Ok? { GateGrown(h, N, a, b, g.value, half, h2, N2); }
      }
      assert r.Ok? && Linked(h) ==> Linked(r.value.0) by {
        if r.Ok? && Linked(h) { GateKeepsLinked(h2, N2, g.value, half); }
      }
      r
  }

  /**
    The cut of ADD_NODE: disconnecting the endpoints of connection `c`, a
    member of `connections`, keeps the arena's sizes and the member list;
    between distinct endpoints it takes one entry out of `connections` and,
    under linkage, ends the projection.
   */
  lemma Cut(h: Heap, N: Network, c: nat)
    requires Wf(h) && Indexed(h, N) && c in N.connections
    requires Networks.Disconnect(h, N, h.conns[c].from, h.conns[c].to).Ok?
    ensures var (h1, N1) := Networks.Disconnect(h, N, h.conns[c].from, h.conns[c].to).value;
      var (a, b) := (h.conns[c].from, h.conns[c].to);
      && |h1.nodes| == |h.nodes| && |h1.conns| == |h.conns| && N1.nodes == N.nodes && N1.output == N.output
      && (a != b ==> |N1.connections| == |N.connections| - 1)
      && (Linked(h) ==> Linked(h1) && (a != b ==> !IsProjectingTo(h1, a, b)))
  {
    var (a, b) := (h.conns[c].from, h.conns[c].to);
    assert ConnWf(h.conns[c], |h.nodes|);
    if a != b {
      var k :| 0 <= k < |N.connections| && N.connections[k] == c;
      assert FindEdge(h, N.connections, a, b) <= k;
    }
    if Linked(h) {
      DisconnectKeepsLinked(h, N, a, b);
      if a != b { DisconnectUnprojects(h, N, a, b); }
    }
  }

  /**
    Everything ADD_NODE promises about splitting connection `c` (from `a`
    to `b`, gater `g`): one fresh hidden node `n`, filed by `Place`; the
    connections `a` to `n` and `n` to `b` right after `n`'s self-connection,
    one of them gated by `g` if there was one, none otherwise; a net gain
    of one entry in `connections`; and, under linkage, `a` no longer
    projects to `b` directly.
   */
  predicate NodeAdded(h: Heap, N: Network, c: nat, h2: Heap, N2: Network)
    requires Wf(h) && Wf(h2) && c < |h.conns|
  {
    var k := h.conns[c];
    var n := |h.nodes|;
    var (c1, c2) := (|h.conns| + 1, |h.conns| + 2);
    && k.from < |h.nodes| && k.to < |h.nodes|
    && |h2.nodes| == n + 1 && |h2.conns| == |h.conns| + 3
    && h2.nodes[n].kind == Hidden
    && N2.nodes == Place(N.nodes, N.output, k.to, n)
    && (k.from != k.to ==> |N2.connections| == |N.connections| + 1)
    && h2.conns[c1].from == k.from && h2.conns[c1].to == n
    && h2.conns[c2].from == n && h2.conns[c2].to == k.to
    && GatesOne(h2, c1, c2, k.gater)
    && IsProjectingTo(h2, k.from, n) && IsProjectingTo(h2, n, k.to)
    && (Linked(h) && k.from != k.to ==> !IsProjectingTo(h2, k.from, k.to))
  }

  lemma GrownAdded(h: Heap, N: Network, c: nat, h1: Heap, N1: Network, h2: Heap, N2: Network)
    requires Wf(h) && Wf(h1) && Wf(h2) && c < |h.conns|
    requires var k := h.conns[c];
      && k.from < |h.nodes| && k.to < |h.nodes|
      && |h1.nodes| == |h.nodes| && |h1.conns| == |h.conns| && N1.nodes == N.nodes && N1.output == N.output
      && (k.from != k.to ==> |N1.connections| == |N.connections| - 1)
      && (Linked(h) && k.from != k.to ==> !IsProjectingTo(h1, k.from, k.to))
      && Grown(h1, N1, k.from, k.to, k.gater, h2, N2)
    ensures NodeAdded(h, N, c, h2, N2)
  {
  }

  /** ADD_NODE once connection `c` is chosen: cut it, then grow the fresh node in its place. */
  function AddNodeAt(h: Heap, N: Network, c: nat, us: Stream, ws: nat -> real, bs: nat -> real)
    : (r: Result<(Heap, Network)>)
    requires Wf(h) && Indexed(h, N) && c in N.connections
    ensures r.Err? ==> r.error in {NotGated, Undefined, NotMember}
    ensures r.Ok? ==> Wf(r.value.0) && Indexed(r.value.0, r.value.1) && NodeAdded(h, N, c, r.value.0, r.value.1)
    ensures r.Ok? && Linked(h) ==> Linked(r.value.0)
  {
    var k := h.conns[c];
    assert ConnWf(k, |h.nodes|);
    var (h1, N1) :- Networks.Disconnect(h, N, k.from, k.to);
    Cut(h, N, c);
    var r := Grow(h1, N1, k.from, k.to, k.gater, bs(|h.nodes|), us(1), us(2), ws);
    assert r.Ok? ==> NodeAdded(h, N, c, r.value.0, r.value.1) by {
      if r.Ok? { GrownAdded(h, N, c, h1, N1, r.value.0, r.value.1); }
    }
    r
  }

  /**
    ADD_NODE: a connection drawn from `connections` is split by a fresh
    hidden node. With no connection to draw, reading its gater throws.
   */
  function AddNode(h: Heap, N: Network, us: Stream, ws: nat -> real, bs: nat -> real): (r: Result<(Heap, Network)>)
    requires Wf(h) && Indexed(h, N)
    ensures N.connections == [] ==> r == Err(Undefined)
    ensures r.Err? ==> r.error in {NotGated, Undefined, NotMember}
    ensures r.Ok? ==> Wf(r.value.0) && Indexed(r.value.0, r.value.1)
    ensures r.Ok? ==> |r.value.0.nodes| == |h.nodes| + 1 && |r.value.1.nodes| == |N.nodes| + 1
    ensures r.Ok? ==> exists c | c in N.connections :: NodeAdded(h, N, c, r.value.0, r.value.1)
    ensures r.Ok? && Linked(h) ==> Linked(r.value.0)
  {
    if N.connections == [] then Err(Undefined)
    else
      var c := N.connections[Pick(us(0), |N.connections|)];
      assert c in N.connections;
      AddNodeAt(h, N, c, us, ws, bs)
  }

  // --------------------------------------------------------------- dispatch

  /** How many members an operator adds (+1), removes (-1) or keeps (0), given the member count before. */
  function Growth(m: Mutation, N: Network): int {
    match m
    case AddNode => 1
    case SubNode(_) => if |N.nodes| == N.input + N.output then 0 else -1
    case _ => 0
  }

  /** The operators that rewire or retune without touching the member list. */
  function MutateWiring(h: Heap, N: Network, m: Mutation, us: Stream, ws: nat -> real): (r: Result<(Heap, Network)>)
    requires Wf(h) && Indexed(h, N)
    requires m.AddConn? || m.SubConn? || m.AddSelfConn? || m.SubSelfConn? || m.AddGate? || m.SubGate?
      || m.AddBackConn? || m.SubBackConn?
    ensures r.Ok? ==> Wf(r.value.0) && Indexed(r.value.0, r.value.1)
    ensures r.Ok? ==> |r.value.0.nodes| == |h.nodes| && r.value.1.nodes == N.nodes
    ensures r.Ok? && Linked(h) ==> Linked(r.value.0)
  {
    match m
    case AddConn => Ok(AddConn(h, N, false, us, ws))
    case SubConn => SubConn(h, N, false, us)
    case AddSelfConn => AddSelfConn(h, N, us)
    case SubSelfConn => SubSelfConn(h, N, us)
    case AddGate => AddGate(h, N, us)
    case SubGate => SubGate(h, N, us)
    case AddBackConn => Ok(AddConn(h, N, true, us, ws))
    case SubBackConn => SubConn(h, N, true, us)
  }

  /** The operators that retune a weight, a bias or a squash. */
  function MutateValues(h: Heap, N: Network, m: Mutation, us: Stream): (r: Result<(Heap, Network)>)
    requires Wf(h) && Indexed(h, N)
    requires m.ModWeight? || m.ModBias? || m.ModActivation? || m.SwapNodes?
    requires m.ModActivation? ==> |m.allowed| > 0
    ensures r.Ok? ==> r.value.1 == N && Wf(r.value.0) && SameShape(h, r.value.0)
    ensures r.Ok? && Linked(h) ==> Linked(r.value.0)
  {
    match m
    case ModWeight(lo, hi) => ModWeight(h, N, lo, hi, us)
    case ModBias(lo, hi) => ModBias(h, N, lo, hi, us)
    case ModActivation(mo, allowed) => ModActivation(h, N, mo, allowed, us)
    case SwapNodes(mo) => SwapNodes(h, N, mo, us)
  }

  /** The operators that add or remove a member. */
  function MutateMembers(h: Heap, N: Network, m: Mutation, us: Stream, ws: nat -> real, bs: nat -> real)
    : (r: Result<(Heap, Network)>)
    requires Wf(h) && Indexed(h, N) && (m.AddNode? || m.SubNode?)
    ensures r.Ok? ==> Wf(r.value.0) && Indexed(r.value.0, r.value.1)
    ensures r.Ok? ==> |r.value.0.nodes| == |h.nodes| + (if m.AddNode? then 1 else 0)
    ensures r.Ok? ==> |r.value.1.nodes| == |N.nodes| + Growth(m, N)
    ensures r.Ok? && Linked(h) ==> Linked(r.value.0)
  {
    if m.AddNode? then AddNode(h, N, us, ws, bs) else SubNode(h, N, m.keepGates, us, ws)
  }

  /**
    `network.mutate(method)`: without a method it throws; otherwise the
    operator of that name runs (`us` holds its draws, `ws` the weights of
    fresh connections by id, `bs` the biases of fresh nodes by id).
   */
  function Mutate(h: Heap, N: Network, m: Option<Mutation>, us: Stream, ws: nat -> real, bs: nat -> real)
    : (r: Result<(Heap, Network)>)
    requires Wf(h) && Indexed(h, N)
    requires m.Some? && m.value.ModActivation? ==> |m.value.allowed| > 0
    ensures m.None? ==> r == Err(NoMethod)
    ensures r.Ok? ==> Wf(r.value.0) && Indexed(r.value.0, r.value.1)
    ensures r.Ok? ==> |r.value.0.nodes| == |h.nodes| + (if m.value.AddNode? then 1 else 0)
    ensures r.Ok? ==> |r.value.1.nodes| == |N.nodes| + Growth(m.value, N)
    ensures r.Ok? && !m.value.AddNode? && !m.value.SubNode? ==> r.value.1.nodes == N.nodes
    ensures r.Ok? && Linked(h) ==> Linked(r.value.0)
  {
    if m.None? then Err(NoMethod)
    else if m.value.AddNode? || m.value.SubNode? then MutateMembers(h, N, m.value, us, ws, bs)
    else if m.value.ModWeight? || m.value.ModBias? || m.value.ModActivation? || m.value.SwapNodes? then
      MutateValues(h, N, m.value, us)
    else MutateWiring(h, N, m.value, us, ws)
  }
}
