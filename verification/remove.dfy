/**
  `network.remove(node)`: the node's edges are taken down, every former
  source is wired to every former target it does not already project to,
  the gaters of the removed edges are handed out to the new edges, the
  node stops gating, and it leaves the member list.
 */
module Removal {
  import opened Base
  import opened Nodes
  import opened Links
  import opened Networks
  import opened NetworkLinks

  /** The state after one of the two sweeps over the node's edges, with the far ends and gaters gathered so far. */
  datatype Sweep = Sweep(h: Heap, N: Network, ends: seq<nat>, gaters: seq<nat>)

  /** The node's incoming list, or its outgoing list. */
  function Edges(h: Heap, n: nat, incoming: bool): seq<nat>
    requires n < |h.nodes|
  {
    if incoming then h.nodes[n].inConns else h.nodes[n].outConns
  }

  /** The end of connection `c` away from the swept node: its source for an incoming edge, its target otherwise. */
  function Far(h: Heap, c: nat, incoming: bool): nat
    requires c < |h.conns|
  {
    if incoming then h.conns[c].from else h.conns[c].to
  }

  /** `network.disconnect` of one swept edge: from its far end to the node, or from the node to its far end. */
  function DropEdge(h: Heap, N: Network, n: nat, far: nat, incoming: bool): (r: Result<(Heap, Network)>)
    requires Wf(h) && Indexed(h, N) && n < |h.nodes| && far < |h.nodes|
    ensures r.Ok? ==>
      && Wf(r.value.0) && Indexed(r.value.0, r.value.1) && r.value.1.nodes == N.nodes
      && |r.value.0.nodes| == |h.nodes| && |r.value.0.conns| == |h.conns|
    ensures r.Err? ==> r.error == NotGated || r.error == Undefined
    ensures r.Ok? && Linked(h) ==> Linked(r.value.0)
  {
    var r := if incoming then Networks.Disconnect(h, N, far, n) else Networks.Disconnect(h, N, n, far);
    assert r.Ok? && Linked(h) ==> Linked(r.value.0) by {
      if r.Ok? && Linked(h) {
        if incoming { DisconnectKeepsLinked(h, N, far, n); } else { DisconnectKeepsLinked(h, N, n, far); }
      }
    }
    r
  }

  /**
    The gater a removed edge hands back: only with `keep_gates` set, and
    only when the edge has a gater other than the removed node.
   */
  function Reclaim(h: Heap, c: nat, n: nat, keepGates: bool): (gs: seq<nat>)
    requires Wf(h) && c < |h.conns|
    ensures IdsBelow(gs, |h.nodes|)
    ensures forall k | 0 <= k < |gs| :: keepGates && h.conns[c].gater == Some(gs[k]) && gs[k] != n
    ensures keepGates && h.conns[c].gater.Some? && h.conns[c].gater.value != n ==> |gs| == 1
  {
    assert ConnWf(h.conns[c], |h.nodes|);
    if keepGates && h.conns[c].gater.Some? && h.conns[c].gater.value != n then [h.conns[c].gater.value] else []
  }

  /**
    One sweep, `for (i = list.length - 1; i >= 0; i--)` over the LIVE
    list, with `i` the count still to visit.
   */
  function SweepFrom(h: Heap, N: Network, n: nat, i: nat, incoming: bool, keepGates: bool,
                     ends: seq<nat>, gaters: seq<nat>): (r: Result<Sweep>)
    requires Wf(h) && Indexed(h, N) && n < |h.nodes|
    requires IdsBelow(ends, |h.nodes|) && IdsBelow(gaters, |h.nodes|)
    ensures r.Ok? ==> Swept(h, N, n, ends, gaters, r.value)
    ensures r.Err? ==> r.error == NotGated || r.error == Undefined
    decreases i, 1
  {
    if i == 0 then Ok(Sweep(h, N, ends, gaters))
    else SweepEdge(h, N, n, i, incoming, keepGates, ends, gaters)
  }

  /**
    The body of the sweep for the edge at position i − 1 of the live list:
    past the live list's end the entry is undefined and reading it throws;
    otherwise its far end and reclaimed gater are recorded and
    `network.disconnect` takes it down.
   */
  function SweepEdge(h: Heap, N: Network, n: nat, i: nat, incoming: bool, keepGates: bool,
                     ends: seq<nat>, gaters: seq<nat>): (r: Result<Sweep>)
    requires Wf(h) && Indexed(h, N) && n < |h.nodes| && i > 0
    requires IdsBelow(ends, |h.nodes|) && IdsBelow(gaters, |h.nodes|)
    ensures r.Ok? ==> Swept(h, N, n, ends, gaters, r.value)
    ensures r.Err? ==> r.error == NotGated || r.error == Undefined
    decreases i, 0
  {
    var es := Edges(h, n, incoming);
    if i - 1 >= |es| then Err(Undefined)
    else
      assert NodeWf(h.nodes[n], |h.conns|);
      var c := es[i - 1];
      assert ConnWf(h.conns[c], |h.nodes|);
      var far := Far(h, c, incoming);
      assert Linked(h) ==> far != n by {
        if Linked(h) {
          assert NodeLinked(h, n);
          assert c == es[i - 1];
        }
      }
      var (h1, N1) :- DropEdge(h, N, n, far, incoming);
      SweepFrom(h1, N1, n, i - 1, incoming, keepGates, ends + [far], gaters + Reclaim(h, c, n, keepGates))
  }

  /**
    What a sweep from `h` keeps: a well-formed arena of the same size, the
    recorded ends and gaters only grow, and on a linked arena linkage
    survives and the node never records itself as a far end.
   */
  predicate Swept(h: Heap, N: Network, n: nat, ends: seq<nat>, gaters: seq<nat>, s: Sweep) {
    && Wf(s.h) && Indexed(s.h, s.N) && s.N.nodes == N.nodes
    && |s.h.nodes| == |h.nodes| && |s.h.conns| == |h.conns|
    && IdsBelow(s.ends, |h.nodes|) && IdsBelow(s.gaters, |h.nodes|)
    && |ends| <= |s.ends| && (forall k | 0 <= k < |ends| :: s.ends[k] == ends[k])
    && |gaters| <= |s.gaters| && (forall k | 0 <= k < |gaters| :: s.gaters[k] == gaters[k])
    && (Linked(h) ==> Linked(s.h) && forall k | |ends| <= k < |s.ends| :: s.ends[k] != n)
  }

  /**
    The nested rewiring loop over (input, output) pairs in order: a pair
    whose input does not already project to its output is connected with
    a fresh random weight (`ws` at the new connection's id), and the
    connection is recorded. A pair whose ends coincide revives that node's
    self-connection. On a linked arena, afterwards every pair projects and
    nothing that projected before stops.
   */
  function Rewire(h: Heap, N: Network, ps: seq<(nat, nat)>, ws: nat -> real, made: seq<nat>, k: nat)
    : (r: Result<(Heap, Network, seq<nat>)>)
    requires Wf(h) && Indexed(h, N) && PairsBelow(ps, |h.nodes|) && IdsBelow(made, |h.conns|) && k <= |ps|
    ensures r.Ok?
    ensures Wf(r.value.0) && Indexed(r.value.0, r.value.1) && r.value.1.nodes == N.nodes
    ensures |r.value.0.nodes| == |h.nodes| && IdsBelow(r.value.2, |r.value.0.conns|)
    ensures Linked(h) ==>
      && Linked(r.value.0)
      && KeepsProjections(h, r.value.0)
      && forall j | k <= j < |ps| :: IsProjectingTo(r.value.0, ps[j].0, ps[j].1)
    decreases |ps| - k
  {
    if k == |ps| then Ok((h, N, made))
    else
      var (a, b) := ps[k];
      if IsProjectingTo(h, a, b) then
        var r := Rewire(h, N, ps, ws, made, k + 1);
        assert Linked(h) ==> IsProjectingTo(r.value.0, a, b) by {
          if Linked(h) { KeepsOne(h, r.value.0, a, b); }
        }
        r
      else
        var (h1, N1, cs) := Networks.Connect(h, N, a, b, None, ws(|h.conns|)).value;
        assert Linked(h) ==> Linked(h1) && KeepsProjections(h, h1) && IsProjectingTo(h1, a, b) by {
          if Linked(h) { ConnectStep(h, N, a, b, ws(|h.conns|), h1, N1, cs); }
        }
        var r := Rewire(h1, N1, ps, ws, made + cs, k + 1);
        assert Linked(h) ==> KeepsProjections(h, r.value.0) && IsProjectingTo(r.value.0, a, b) by {
          if Linked(h) {
            KeepsTrans(h, h1, r.value.0);
            KeepsOne(h1, r.value.0, a, b);
          }
        }
        r
  }

  /** One projection kept. */
  lemma KeepsOne(h: Heap, h2: Heap, a: nat, b: nat)
    requires Wf(h) && Wf(h2) && |h2.nodes| == |h.nodes| && a < |h.nodes| && b < |h.nodes|
    requires KeepsProjections(h, h2) && IsProjectingTo(h, a, b)
    ensures IsProjectingTo(h2, a, b)
  {
  }

  /** `KeepsProjections` is transitive. */
  lemma KeepsTrans(h: Heap, h1: Heap, h2: Heap)
    requires Wf(h) && Wf(h1) && Wf(h2) && |h1.nodes| == |h.nodes| && |h2.nodes| == |h.nodes|
    requires KeepsProjections(h, h1) && KeepsProjections(h1, h2)
    ensures KeepsProjections(h, h2)
  {
  }

  /** On a linked arena, connecting two nodes keeps linkage and every projection, and adds theirs. */
  lemma ConnectStep(h: Heap, N: Network, a: nat, b: nat, w: real, h1: Heap, N1: Network, cs: seq<nat>)
    requires Linked(h) && a < |h.nodes| && b < |h.nodes|
    requires Networks.Connect(h, N, a, b, None, w) == Ok((h1, N1, cs))
    ensures Wf(h1) && |h1.nodes| == |h.nodes|
    ensures Linked(h1) && KeepsProjections(h, h1) && IsProjectingTo(h1, a, b)
  {
    ConnectKeepsLinked(h, N, a, b, None, w);
    ConnectKeepsWiring(h, N, a, b, None, w);
    WiringKeepsProjections(h, h1, None);
  }

  /** Gating keeps every projection, and linkage. */
  lemma GateStep(h: Heap, N: Network, g: nat, c: nat, h1: Heap, N1: Network)
    requires Wf(h) && g < |h.nodes| && c < |h.conns|
    requires Networks.Gate(h, N, g, c) == Ok((h1, N1))
    ensures Wf(h1) && |h1.nodes| == |h.nodes|
    ensures KeepsProjections(h, h1) && (Linked(h) ==> Linked(h1))
  {
    GateKeepsWiring(h, N, g, c);
    WiringKeepsProjections(h, h1, None);
    if Linked(h) { GateKeepsLinked(h, N, g, c); }
  }

  /** Ungating keeps every projection, and linkage. */
  lemma UngateStep(h: Heap, N: Network, c: nat, h1: Heap, N1: Network)
    requires Wf(h) && c < |h.conns|
    requires Networks.Ungate(h, N, c) == Ok((h1, N1))
    ensures Wf(h1) && |h1.nodes| == |h.nodes|
    ensures KeepsProjections(h, h1) && (Linked(h) ==> Linked(h1))
  {
    UngateKeepsWiring(h, N, c);
    WiringKeepsProjections(h, h1, None);
    if Linked(h) { UngateKeepsLinked(h, N, c); }
  }

  /**
    The choices of the regating loop: while gaters remain and new
    connections remain, the next gater takes a randomly picked new
    connection (`us(i)` for the i-th gater), which is then taken off the
    list. The assignments are (gater, connection) pairs: one per gater,
    in order, while connections last.
   */
  function Assign(gaters: seq<nat>, made: seq<nat>, us: Stream, i: nat): (ps: seq<(nat, nat)>)
    requires i <= |gaters|
    ensures |ps| == Min(|gaters| - i, |made|)
    ensures forall k | 0 <= k < |ps| :: ps[k].0 == gaters[i + k] && ps[k].1 in made
    decreases |gaters| - i
  {
    if i == |gaters| || made == [] then []
    else
      var k := Pick(us(i), |made|);
      var rest := Assign(gaters, RemoveAt(made, k), us, i + 1);
      var ps := [(gaters[i], made[k])] + rest;
      assert forall j | 1 <= j < |ps| :: ps[j] == rest[j - 1];
      ps
  }

  /** No two assignments name the same connection. */
  predicate DistinctTargets(ps: seq<(nat, nat)>) {
    forall x, y | 0 <= x < y < |ps| :: ps[x].1 != ps[y].1
  }

  /** With distinct new connections, no connection receives two gaters. */
  lemma {:induction false} AssignDistinct(gaters: seq<nat>, made: seq<nat>, us: Stream, i: nat)
    requires i <= |gaters| && Distinct(made)
    ensures DistinctTargets(Assign(gaters, made, us, i))
    decreases |gaters| - i
  {
    if i < |gaters| && made != [] {
      var k := Pick(us(i), |made|);
      var rest := RemoveAt(made, k);
      RemoveAtDistinct(made, k);
      AssignDistinct(gaters, rest, us, i + 1);
      var tail := Assign(gaters, rest, us, i + 1);
      var ps := Assign(gaters, made, us, i);
      assert ps == [(gaters[i], made[k])] + tail;
      forall x, y | 0 <= x < y < |ps|
        ensures ps[x].1 != ps[y].1
      {
        assert ps[y] == tail[y - 1] && tail[y - 1].1 in rest;
        if x > 0 {
          assert ps[x] == tail[x - 1];
          assert tail[x - 1].1 != tail[y - 1].1;
        } else {
          assert ps[x].1 == made[k];
          assert made[k] !in rest;
        }
      }
    }
  }

  /**
    `network.gate` for the assignments from position `k` on, stopping at
    the first that throws. Gating changes no projection.
   */
  function GateAll(h: Heap, N: Network, ps: seq<(nat, nat)>, k: nat): (r: Result<(Heap, Network)>)
    requires Wf(h) && Indexed(h, N) && AssignsBelow(ps, |h.nodes|, |h.conns|) && k <= |ps|
    ensures r.Ok? ==>
      && Wf(r.value.0) && Indexed(r.value.0, r.value.1) && r.value.1.nodes == N.nodes
      && |r.value.0.nodes| == |h.nodes| && |r.value.0.conns| == |h.conns|
      && KeepsProjections(h, r.value.0)
      && (Linked(h) ==> Linked(r.value.0))
    ensures r.Err? ==> r.error == NotMember
    decreases |ps| - k
  {
    if k == |ps| then Ok((h, N))
    else
      var (h1, N1) :- Networks.Gate(h, N, ps[k].0, ps[k].1);
      GateStep(h, N, ps[k].0, ps[k].1, h1, N1);
      var r := GateAll(h1, N1, ps, k + 1);
      assert r.Ok? ==> KeepsProjections(h, r.value.0) by {
        if r.Ok? { KeepsTrans(h, h1, r.value.0); }
      }
      r
  }

  /** Assignments of a node id below `n` to a connection id below `m`. */
  predicate AssignsBelow(ps: seq<(nat, nat)>, n: nat, m: nat) {
    forall k | 0 <= k < |ps| :: ps[k].0 < n && ps[k].1 < m
  }

  /**
    The regating loop of `remove`: the reclaimed gaters gate the new
    connections as `Assign` chooses, and the assignments are returned.
   */
  function Regate(h: Heap, N: Network, gaters: seq<nat>, made: seq<nat>, us: Stream)
    : (r: Result<(Heap, Network, seq<(nat, nat)>)>)
    requires Wf(h) && Indexed(h, N) && IdsBelow(gaters, |h.nodes|) && IdsBelow(made, |h.conns|)
    ensures r.Ok? ==>
      && Wf(r.value.0) && Indexed(r.value.0, r.value.1) && r.value.1.nodes == N.nodes
      && |r.value.0.nodes| == |h.nodes| && |r.value.0.conns| == |h.conns|
      && KeepsProjections(h, r.value.0)
      && (Linked(h) ==> Linked(r.value.0))
      && r.value.2 == Assign(gaters, made, us, 0)
    ensures r.Err? ==> r.error == NotMember
  {
    var ps := Assign(gaters, made, us, 0);
    assert AssignsBelow(ps, |h.nodes|, |h.conns|) by {
      forall k | 0 <= k < |ps| ensures ps[k].0 < |h.nodes| && ps[k].1 < |h.conns| {
        assert ps[k].0 == gaters[k];
      }
    }
    var (h1, N1) :- GateAll(h, N, ps, 0);
    Ok((h1, N1, ps))
  }

  /**
    `for (i = gated.length - 1; i >= 0; i--) this.ungate(gated[i])` over
    the LIVE gated list of the node, `i` the count still to visit. A read
    past the live list's end is `undefined`, which `gates` never holds,
    so ungating it throws. Ungating changes no projection, and on a linked
    arena a run over the whole list leaves the node gating nothing.
   */
  function UngateAll(h: Heap, N: Network, n: nat, i: nat): (r: Result<(Heap, Network)>)
    requires Wf(h) && Indexed(h, N) && n < |h.nodes|
    ensures r.Ok? ==>
      && Wf(r.value.0) && Indexed(r.value.0, r.value.1) && r.value.1.nodes == N.nodes
      && |r.value.0.nodes| == |h.nodes| && |r.value.0.conns| == |h.conns|
      && KeepsProjections(h, r.value.0)
    ensures r.Err? ==> r.error == NotGated || r.error == Undefined
    ensures r.Ok? && Linked(h) ==> Linked(r.value.0)
    ensures r.Ok? && Linked(h) && i == |h.nodes[n].gated| ==> r.value.0.nodes[n].gated == []
    decreases i
  {
    if i == 0 then Ok((h, N))
    else
      var gs := h.nodes[n].gated;
      if i - 1 >= |gs| then Err(NotGated)
      else
        assert NodeWf(h.nodes[n], |h.conns|);
        var c := gs[i - 1];
        var (h1, N1) :- Networks.Ungate(h, N, c);
        UngateIndexed(h, N, c);
        UngateStep(h, N, c, h1, N1);
        assert Linked(h) && i == |gs| ==> |h1.nodes[n].gated| == i - 1 by {
          if Linked(h) && i == |gs| { UngateLast(h, N, n); }
        }
        var r := UngateAll(h1, N1, n, i - 1);
        assert r.Ok? ==> KeepsProjections(h, r.value.0) by {
          if r.Ok? { KeepsTrans(h, h1, r.value.0); }
        }
        r
  }

  /** On a linked arena, ungating the last connection a node gates shortens its gated list by one. */
  lemma UngateLast(h: Heap, N: Network, n: nat)
    requires Linked(h) && n < |h.nodes| && |h.nodes[n].gated| > 0
    requires Networks.Ungate(h, N, h.nodes[n].gated[|h.nodes[n].gated| - 1]).Ok?
    ensures |Networks.Ungate(h, N, h.nodes[n].gated[|h.nodes[n].gated| - 1]).value.0.nodes[n].gated| == |h.nodes[n].gated| - 1
  {
    var gs := h.nodes[n].gated;
    assert NodeLinked(h, n);
    var c := gs[|gs| - 1];
    assert h.conns[c].gater == Some(n);
    assert Nodes.Ungate(h, n, [c]) == UngateOne(h, n, c);
    SpliceOutDistinct(gs, c);
  }

  /**
    The first half of `network.remove(node)`: the node's self-connection
    is dropped, then its incoming edges are swept and then its outgoing
    ones. The two sweeps are returned: the first records the former
    sources, the second the former targets, the current state and every
    reclaimed gater. On a linked arena, linkage survives and the node is
    none of the recorded ends.
   */
  function Detach(h: Heap, N: Network, n: nat, keepGates: bool): (r: Result<(Sweep, Sweep)>)
    requires Wf(h) && Indexed(h, N) && n < |h.nodes|
    ensures r.Ok? ==>
      var (s1, s2) := r.value;
      && Wf(s2.h) && Indexed(s2.h, s2.N) && s2.N.nodes == N.nodes
      && |s2.h.nodes| == |h.nodes| && |s2.h.conns| == |h.conns|
      && IdsBelow(s1.ends, |h.nodes|) && IdsBelow(s2.ends, |h.nodes|) && IdsBelow(s2.gaters, |h.nodes|)
      && (Linked(h) ==> Linked(s2.h) && n !in s1.ends && n !in s2.ends)
    ensures r.Err? ==> r.error == NotGated || r.error == Undefined
  {
    var (h1, N1) :- DropEdge(h, N, n, n, true);
    var s1 :- SweepFrom(h1, N1, n, |h1.nodes[n].inConns|, true, keepGates, [], []);
    var s2 :- SweepFrom(s1.h, s1.N, n, |s1.h.nodes[n].outConns|, false, keepGates, [], s1.gaters);
    Ok((s1, s2))
  }

  /** Every node of `xs` projects to every node of `ys`, but possibly `n` onto itself. */
  predicate AllProject(xs: seq<nat>, ys: seq<nat>, n: Option<nat>, h: Heap)
    requires Wf(h) && IdsBelow(xs, |h.nodes|) && IdsBelow(ys, |h.nodes|)
  {
    forall i, j | 0 <= i < |xs| && 0 <= j < |ys| && (n != Some(xs[i]) || n != Some(ys[j])) ::
      IsProjectingTo(h, xs[i], ys[j])
  }

  /**
    The rewiring of `remove`: every recorded source is wired to every
    recorded target, and the reclaimed gaters regate the new connections.
    On a linked arena, linkage survives, no projection is lost and every
    source projects to every target.
   */
  function Relink(s1: Sweep, s2: Sweep, ws: nat -> real, us: Stream): (r: Result<(Heap, Network)>)
    requires Wf(s2.h) && Indexed(s2.h, s2.N)
    requires IdsBelow(s1.ends, |s2.h.nodes|) && IdsBelow(s2.ends, |s2.h.nodes|) && IdsBelow(s2.gaters, |s2.h.nodes|)
    ensures r.Ok? ==>
      && Wf(r.value.0) && Indexed(r.value.0, r.value.1) && r.value.1.nodes == s2.N.nodes
      && |r.value.0.nodes| == |s2.h.nodes|
    ensures r.Err? ==> r.error == NotMember
    ensures r.Ok? && Linked(s2.h) ==>
      Linked(r.value.0) && KeepsProjections(s2.h, r.value.0) && AllProject(s1.ends, s2.ends, None, r.value.0)
  {
    GridBelow(s1.ends, s2.ends, |s2.h.nodes|);
    var G := Grid(s1.ends, s2.ends);
    var (h3, N3, made) := Rewire(s2.h, s2.N, G, ws, [], 0).value;
    var (h4, N4, _) :- Regate(h3, N3, s2.gaters, made, us);
    assert Linked(s2.h) ==> KeepsProjections(s2.h, h4) && AllProject(s1.ends, s2.ends, None, h4) by {
      if Linked(s2.h) {
        KeepsTrans(s2.h, h3, h4);
        GridProjects(s1.ends, s2.ends, h3, h4);
      }
    }
    Ok((h4, N4))
  }

  /** Projections along every pair of the grid, kept into `h2`, are projections between the two lists. */
  lemma GridProjects(xs: seq<nat>, ys: seq<nat>, h: Heap, h2: Heap)
    requires Wf(h) && Wf(h2) && |h2.nodes| == |h.nodes| && IdsBelow(xs, |h.nodes|) && IdsBelow(ys, |h.nodes|)
    requires PairsBelow(Grid(xs, ys), |h.nodes|)
    requires forall k | 0 <= k < |Grid(xs, ys)| :: IsProjectingTo(h, Grid(xs, ys)[k].0, Grid(xs, ys)[k].1)
    requires KeepsProjections(h, h2)
    ensures AllProject(xs, ys, None, h2)
  {
    var G := Grid(xs, ys);
    forall i, j | 0 <= i < |xs| && 0 <= j < |ys|
      ensures IsProjectingTo(h2, xs[i], ys[j])
    {
      var k := Flat(i, j, |ys|);
      assert G[k] == (xs[i], ys[j]);
      KeepsOne(h, h2, xs[i], ys[j]);
    }
  }

  /**
    The second half of `remove`: the rewiring above, then the node
    ungates everything it still gates and its self-connection is dropped
    again. On a linked arena, linkage survives, the node ends up gating
    nothing, and every recorded source projects to every recorded target
    (but the node onto itself).
   */
  function Reattach(s1: Sweep, s2: Sweep, n: nat, ws: nat -> real, us: Stream): (r: Result<(Heap, Network)>)
    requires Wf(s2.h) && Indexed(s2.h, s2.N) && n < |s2.h.nodes|
    requires IdsBelow(s1.ends, |s2.h.nodes|) && IdsBelow(s2.ends, |s2.h.nodes|) && IdsBelow(s2.gaters, |s2.h.nodes|)
    ensures r.Ok? ==>
      && Wf(r.value.0) && Indexed(r.value.0, r.value.1) && r.value.1.nodes == s2.N.nodes
      && |r.value.0.nodes| == |s2.h.nodes|
    ensures r.Err? ==> r.error == NotMember || r.error == NotGated || r.error == Undefined
    ensures r.Ok? && Linked(s2.h) ==>
      && Linked(r.value.0)
      && r.value.0.nodes[n].gated == []
      && AllProject(s1.ends, s2.ends, Some(n), r.value.0)
  {
    var (h4, N4) :- Relink(s1, s2, ws, us);
    var (h5, N5) :- UngateAll(h4, N4, n, |h4.nodes[n].gated|);
    var (h6, N6) :- Networks.Disconnect(h5, N5, n, n);
    assert Linked(s2.h) ==> Linked(h6) && h6.nodes[n].gated == [] && AllProject(s1.ends, s2.ends, Some(n), h6) by {
      if Linked(s2.h) {
        KeepsTrans(s2.h, h4, h5);
        ReattachFinish(s1.ends, s2.ends, n, h4, h5, N5, h6, N6);
      }
    }
    Ok((h6, N6))
  }

  /**
    The last step of `Reattach`: from an arena `h5` that gates nothing
    from the node and keeps the projections of `h4`, dropping the node's
    self-connection keeps linkage and every projection between the two
    lists but that of the node onto itself.
   */
  lemma ReattachFinish(xs: seq<nat>, ys: seq<nat>, n: nat, h4: Heap, h5: Heap, N5: Network, h6: Heap, N6: Network)
    requires Wf(h4) && Linked(h5) && |h5.nodes| == |h4.nodes| && n < |h5.nodes|
    requires IdsBelow(xs, |h5.nodes|) && IdsBelow(ys, |h5.nodes|)
    requires IdsBelow(N5.connections, |h5.conns|) && IdsBelow(N5.selfconns, |h5.conns|)
    requires h5.nodes[n].gated == [] && KeepsProjections(h4, h5) && AllProject(xs, ys, None, h4)
    requires Networks.Disconnect(h5, N5, n, n) == Ok((h6, N6))
    ensures Linked(h6) && h6.nodes[n].gated == [] && AllProject(xs, ys, Some(n), h6)
  {
    DisconnectKeepsLinked(h5, N5, n, n);
    DisconnectSelfKeepsWiring(h5, N5, n);
    WiringKeepsProjections(h5, h6, Some(n));
    DisconnectSelfKeepsGated(h5, N5, n);
    forall i, j | 0 <= i < |xs| && 0 <= j < |ys| && (xs[i] != n || ys[j] != n)
      ensures IsProjectingTo(h6, xs[i], ys[j])
    {
      KeepsOne(h4, h5, xs[i], ys[j]);
    }
  }

  /** Dropping the self-connection of a node that gates nothing leaves it gating nothing. */
  lemma DisconnectSelfKeepsGated(h: Heap, N: Network, n: nat)
    requires Linked(h) && n < |h.nodes| && h.nodes[n].gated == []
    requires IdsBelow(N.connections, |h.conns|) && IdsBelow(N.selfconns, |h.conns|)
    requires Networks.Disconnect(h, N, n, n).Ok?
    ensures Networks.Disconnect(h, N, n, n).value.0.nodes[n].gated == []
  {
    var i := FindEdge(h, N.selfconns, n, n);
    if i < |N.selfconns| && h.conns[N.selfconns[i]].gater.Some? {
      var c := N.selfconns[i];
      var g := h.conns[c].gater.value;
      assert GaterLinked(h, c);
      assert g != n;
      assert Networks.Ungate(h, N, c).value.0.nodes[n] == h.nodes[n];
    }
  }

  /**
    `network.remove(node)`: an absent node throws; otherwise the node is
    detached and its neighbours reattached as above, and the node leaves
    the member list. `ws` stands for the new edges' random weights and
    `us` for the regating picks; `keepGates` is
    `mutation.SUB_NODE.keep_gates`.
   */
  function Remove(h: Heap, N: Network, n: nat, keepGates: bool, ws: nat -> real, us: Stream)
    : (r: Result<(Heap, Network)>)
    requires Wf(h) && Indexed(h, N) && n < |h.nodes|
    ensures r == Err(NodeAbsent) <==> n !in N.nodes
    ensures r.Ok? ==> n in N.nodes && r.value.1.nodes == RemoveAt(N.nodes, IndexOf(N.nodes, n))
    ensures r.Ok? ==> Wf(r.value.0) && |r.value.0.nodes| == |h.nodes|
    ensures r.Ok? ==> Indexed(r.value.0, r.value.1.(nodes := N.nodes))
    ensures r.Ok? && Linked(h) ==> Linked(r.value.0) && r.value.0.nodes[n].gated == []
  {
    var index := IndexOf(N.nodes, n);
    if index < 0 then Err(NodeAbsent)
    else
      var (s1, s2) :- Detach(h, N, n, keepGates);
      var (h6, N6) :- Reattach(s1, s2, n, ws, us);
      Ok((h6, N6.(nodes := RemoveAt(N6.nodes, index))))
  }

  /** The removed node leaves the member list, which shrinks by one. */
  lemma RemoveShrinks(h: Heap, N: Network, n: nat, keepGates: bool, ws: nat -> real, us: Stream)
    requires Wf(h) && Indexed(h, N) && n < |h.nodes| && Distinct(N.nodes)
    requires Remove(h, N, n, keepGates, ws, us).Ok?
    ensures var N2 := Remove(h, N, n, keepGates, ws, us).value.1;
      n !in N2.nodes && |N2.nodes| == |N.nodes| - 1 && Distinct(N2.nodes)
      && forall m | m in N.nodes && m != n :: m in N2.nodes
  {
    RemoveAtDistinct(N.nodes, IndexOf(N.nodes, n));
  }

  /**
    On a linked arena, every node the removed node's incoming edges came
    from now projects to every node its outgoing edges went to, and the
    node itself is neither.
   */
  lemma RemoveRewires(h: Heap, N: Network, n: nat, keepGates: bool, ws: nat -> real, us: Stream)
    requires Linked(h) && Indexed(h, N) && n < |h.nodes|
    requires Remove(h, N, n, keepGates, ws, us).Ok?
    ensures var (s1, s2) := Detach(h, N, n, keepGates).value;
      var h2 := Remove(h, N, n, keepGates, ws, us).value.0;
      && n !in s1.ends && n !in s2.ends
      && forall i, j | 0 <= i < |s1.ends| && 0 <= j < |s2.ends| :: IsProjectingTo(h2, s1.ends[i], s2.ends[j])
  {
    var (s1, s2) := Detach(h, N, n, keepGates).value;
    var h2 := Remove(h, N, n, keepGates, ws, us).value.0;
    assert Reattach(s1, s2, n, ws, us).value.0 == h2;
    assert AllProject(s1.ends, s2.ends, Some(n), h2);
    forall i, j | 0 <= i < |s1.ends| && 0 <= j < |s2.ends|
      ensures IsProjectingTo(h2, s1.ends[i], s2.ends[j])
    {
      assert s1.ends[i] in s1.ends;
    }
  }
}
