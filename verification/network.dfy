/**
  A network: ordered member nodes and the three global indices
  (`connections`, `selfconns`, `gates`) the library keeps next to the
  nodes' own edge lists, with the primitives that edit both together.
 */
module Networks {
  import opened Base
  import opened Methods
  import opened Connections
  import opened Nodes
  import opened Links

  /**
    `nodes` is the member order (activation order); `connections` holds the
    member edges between distinct nodes, `selfconns` the live self-loops
    and `gates` the gated connections.
   */
  datatype Network = Network(
    input: nat,
    output: nat,
    nodes: seq<nat>,
    connections: seq<nat>,
    gates: seq<nat>,
    selfconns: seq<nat>,
    dropout: real)

  // --------------------------------------------------------------- invariant

  predicate Members(h: Heap, N: Network) {
    IdsBelow(N.nodes, |h.nodes|) && Distinct(N.nodes)
  }

  /** Every indexed connection is an edge between members, held by its source. */
  predicate ConnsFiled(h: Heap, N: Network)
    requires Wf(h)
  {
    && Distinct(N.connections)
    && (forall i | 0 <= i < |N.connections| ::
          && N.connections[i] < |h.conns|
          && h.conns[N.connections[i]].from in N.nodes
          && h.conns[N.connections[i]].to in N.nodes
          && N.connections[i] in h.nodes[h.conns[N.connections[i]].from].outConns)
  }

  /** Every edge a member holds is indexed. */
  predicate ListsFiled(h: Heap, N: Network)
    requires Wf(h) && Members(h, N)
  {
    && (forall i, j | 0 <= i < |N.nodes| && 0 <= j < |h.nodes[N.nodes[i]].outConns| ::
          h.nodes[N.nodes[i]].outConns[j] in N.connections)
    && (forall i, j | 0 <= i < |N.nodes| && 0 <= j < |h.nodes[N.nodes[i]].inConns| ::
          h.nodes[N.nodes[i]].inConns[j] in N.connections)
  }

  /** `selfconns` holds, once each, exactly the members' self-loops of non-zero weight. */
  predicate SelfsFiled(h: Heap, N: Network)
    requires Wf(h) && Members(h, N)
  {
    && Distinct(N.selfconns)
    && (forall i | 0 <= i < |N.selfconns| ::
          && N.selfconns[i] < |h.conns|
          && h.conns[N.selfconns[i]].from in N.nodes
          && h.nodes[h.conns[N.selfconns[i]].from].selfConn == N.selfconns[i])
    && (forall i | 0 <= i < |N.nodes| ::
          h.nodes[N.nodes[i]].selfConn in N.selfconns <==> SelfWeight(h, N.nodes[i]) != 0.0)
  }

  /** `gates` holds, once each, exactly the indexed connections that have a gater, and gaters are members. */
  predicate GatesFiled(h: Heap, N: Network)
    requires Wf(h) && Members(h, N)
  {
    && Distinct(N.gates)
    && (forall i | 0 <= i < |N.gates| ::
          && N.gates[i] < |h.conns|
          && (N.gates[i] in N.connections || N.gates[i] in N.selfconns)
          && h.conns[N.gates[i]].gater.Some?
          && h.conns[N.gates[i]].gater.value in N.nodes)
    && (forall i | 0 <= i < |N.connections| && N.connections[i] < |h.conns| ::
          h.conns[N.connections[i]].gater.Some? ==> N.connections[i] in N.gates)
    && (forall i | 0 <= i < |N.nodes| ::
          h.conns[h.nodes[N.nodes[i]].selfConn].gater.Some? ==> h.nodes[N.nodes[i]].selfConn in N.gates)
    && (forall i, j | 0 <= i < |N.nodes| && 0 <= j < |h.nodes[N.nodes[i]].gated| ::
          h.nodes[N.nodes[i]].gated[j] in N.gates)
  }

  /** The bookkeeping the library keeps between a network's indices and its nodes. */
  predicate NetInv(h: Heap, N: Network) {
    && Linked(h)
    && Members(h, N)
    && ConnsFiled(h, N)
    && ListsFiled(h, N)
    && SelfsFiled(h, N)
    && GatesFiled(h, N)
  }

  /** Every id the network's lists hold names an object of the arena. */
  predicate Indexed(h: Heap, N: Network) {
    && IdsBelow(N.nodes, |h.nodes|)
    && IdsBelow(N.connections, |h.conns|)
    && IdsBelow(N.gates, |h.conns|)
    && IdsBelow(N.selfconns, |h.conns|)
  }

  lemma RemoveAtIds(s: seq<nat>, i: nat, m: nat)
    requires IdsBelow(s, m) && i < |s|
    ensures IdsBelow(RemoveAt(s, i), m)
  {
  }

  // ------------------------------------------------------------- primitives

  /** The position of the first connection in `cs` from `a` to `b`, or |cs|. */
  function FindEdge(h: Heap, cs: seq<nat>, a: nat, b: nat): (i: nat)
    requires Wf(h) && IdsBelow(cs, |h.conns|)
    ensures i <= |cs|
    ensures i < |cs| ==> h.conns[cs[i]].from == a && h.conns[cs[i]].to == b
    ensures forall j | 0 <= j < i :: h.conns[cs[j]].from != a || h.conns[cs[j]].to != b
  {
    FindEdgeAfter(h, cs, a, b, 0)
  }

  function FindEdgeAfter(h: Heap, cs: seq<nat>, a: nat, b: nat, k: nat): (i: nat)
    requires Wf(h) && IdsBelow(cs, |h.conns|) && k <= |cs|
    requires forall j | 0 <= j < k :: h.conns[cs[j]].from != a || h.conns[cs[j]].to != b
    ensures k <= i <= |cs|
    ensures i < |cs| ==> h.conns[cs[i]].from == a && h.conns[cs[i]].to == b
    ensures forall j | 0 <= j < i :: h.conns[cs[j]].from != a || h.conns[cs[j]].to != b
    decreases |cs| - k
  {
    if k == |cs| then k
    else if h.conns[cs[k]].from == a && h.conns[cs[k]].to == b then k
    else FindEdgeAfter(h, cs, a, b, k + 1)
  }

  /**
    `network.connect(from, to, weight)`: the node-level connect, with each
    returned connection filed in `selfconns` for a self-loop and in
    `connections` otherwise.
   */
  function Connect(h: Heap, N: Network, a: nat, b: nat, weight: Option<real>, draw: real)
    : (r: Result<(Heap, Network, seq<nat>)>)
    requires Wf(h) && a < |h.nodes| && b < |h.nodes|
    ensures r.Err? <==> Nodes.Connect(h, a, b, weight, draw).Err?
    ensures r.Ok? ==>
      var (h2, cs) := Nodes.Connect(h, a, b, weight, draw).value;
      && r.value.0 == h2 && r.value.2 == cs && |cs| == 1
      && (a != b ==> r.value.1 == N.(connections := N.connections + cs))
      && (a == b ==> r.value.1 == N.(selfconns := N.selfconns + cs))
    ensures r.Ok? ==> IdsBelow(r.value.2, |r.value.0.conns|) && |r.value.0.conns| >= |h.conns|
    ensures r.Ok? && Indexed(h, N) ==> Indexed(r.value.0, r.value.1)
  {
    var (h2, cs) :- Nodes.Connect(h, a, b, weight, draw);
    if a != b then Ok((h2, N.(connections := N.connections + cs), cs))
    else Ok((h2, N.(selfconns := N.selfconns + cs), cs))
  }

  /**
    `network.gate(node, connection)`: a non-member gater throws, an already
    gated connection is left as it is, and otherwise the node gates the
    connection and it is appended to `gates`.
   */
  function Gate(h: Heap, N: Network, g: nat, c: nat): (r: Result<(Heap, Network)>)
    requires Wf(h) && g < |h.nodes| && c < |h.conns|
    ensures g !in N.nodes <==> r == Err(NotMember)
    ensures g in N.nodes && h.conns[c].gater.Some? ==> r == Ok((h, N))
    ensures g in N.nodes && h.conns[c].gater.None? ==>
      && r.Ok?
      && r.value.1 == N.(gates := N.gates + [c])
      && r.value.0 == Nodes.Gate(h, g, [c])
      && r.value.0.conns[c].gater == Some(g)
      && r.value.0.nodes[g].gated == h.nodes[g].gated + [c]
    ensures r.Ok? ==> Wf(r.value.0) && |r.value.0.nodes| == |h.nodes| && |r.value.0.conns| == |h.conns|
    ensures r.Ok? ==> r.value.1.nodes == N.nodes
    ensures r.Ok? && Indexed(h, N) ==> Indexed(r.value.0, r.value.1)
  {
    if g !in N.nodes then Err(NotMember)
    else if h.conns[c].gater.Some? then Ok((h, N))
    else Ok((Nodes.Gate(h, g, [c]), N.(gates := N.gates + [c])))
  }

  /**
    `network.ungate(connection)`: a connection outside `gates` throws;
    otherwise it leaves `gates` and its gater ungates it (a connection in
    `gates` without a gater would make the source read a property of
    null).
   */
  function Ungate(h: Heap, N: Network, c: nat): (r: Result<(Heap, Network)>)
    requires Wf(h) && c < |h.conns|
    ensures c !in N.gates <==> r == Err(NotGated)
    ensures c in N.gates && h.conns[c].gater.None? ==> r == Err(Undefined)
    ensures c in N.gates && h.conns[c].gater.Some? ==>
      && r.Ok?
      && r.value.1 == N.(gates := RemoveAt(N.gates, IndexOf(N.gates, c)))
      && r.value.0 == Nodes.Ungate(h, h.conns[c].gater.value, [c])
      && r.value.0.conns[c].gater == None
    ensures r.Ok? ==> Wf(r.value.0) && |r.value.0.nodes| == |h.nodes| && |r.value.0.conns| == |h.conns|
    ensures r.Ok? ==> r.value.1.nodes == N.nodes
    ensures r.Ok? ==> r.value.1 == N.(gates := r.value.1.gates) && forall g | g in r.value.1.gates :: g in N.gates
  {
    var i := IndexOf(N.gates, c);
    if i < 0 then Err(NotGated)
    else
      match h.conns[c].gater
      case None => Err(Undefined)
      case Some(g) =>
        assert ConnWf(h.conns[c], |h.nodes|);
        Ok((Nodes.Ungate(h, g, [c]), N.(gates := RemoveAt(N.gates, i))))
  }

  lemma UngateIndexed(h: Heap, N: Network, c: nat)
    requires Wf(h) && c < |h.conns| && Indexed(h, N) && Ungate(h, N, c).Ok?
    ensures Indexed(Ungate(h, N, c).value.0, Ungate(h, N, c).value.1)
  {
  }

  /**
    `network.disconnect(from, to)`: the first matching entry of `selfconns`
    (for a self-loop) or `connections` is ungated if it has a gater and
    taken out of the index, then the node-level disconnect runs.
   */
  function Disconnect(h: Heap, N: Network, a: nat, b: nat): (r: Result<(Heap, Network)>)
    requires Wf(h) && a < |h.nodes| && b < |h.nodes|
    requires IdsBelow(N.connections, |h.conns|) && IdsBelow(N.selfconns, |h.conns|)
    ensures r.Ok? ==> Wf(r.value.0) && |r.value.0.nodes| == |h.nodes| && |r.value.0.conns| == |h.conns|
    ensures r.Ok? ==> r.value.1.nodes == N.nodes
    ensures r.Ok? && Indexed(h, N) ==> Indexed(r.value.0, r.value.1)
    ensures r.Err? ==> r.error == NotGated || r.error == Undefined
    ensures
      var list := if a == b then N.selfconns else N.connections;
      var i := FindEdge(h, list, a, b);
      && (i == |list| ==> r == Ok((Nodes.Disconnect(h, a, b, false), N)))
      && (i < |list| && h.conns[list[i]].gater.None? ==>
            && r.Ok?
            && r.value.0 == Nodes.Disconnect(h, a, b, false)
            && (a == b ==> r.value.1 == N.(selfconns := RemoveAt(N.selfconns, i)))
            && (a != b ==> r.value.1 == N.(connections := RemoveAt(N.connections, i))))
      && (i < |list| && h.conns[list[i]].gater.Some? ==>
            && (r.Ok? <==> list[i] in N.gates)
            && (r.Ok? ==>
                  var (h1, N1) := Ungate(h, N, list[i]).value;
                  && r.value.0 == Nodes.Disconnect(h1, a, b, false)
                  && N1.gates == RemoveAt(N.gates, IndexOf(N.gates, list[i]))
                  && (a == b ==> r.value.1 == N1.(selfconns := RemoveAt(N.selfconns, i)))
                  && (a != b ==> r.value.1 == N1.(connections := RemoveAt(N.connections, i)))))
  {
    var list := if a == b then N.selfconns else N.connections;
    var i := FindEdge(h, list, a, b);
    if i == |list| then Ok((Nodes.Disconnect(h, a, b, false), N))
    else
      var c := list[i];
      var (h1, N1) :- if h.conns[c].gater.Some? then Ungate(h, N, c) else Ok((h, N));
      var N2 := if a == b then N1.(selfconns := RemoveAt(N1.selfconns, i))
                else N1.(connections := RemoveAt(N1.connections, i));
      RemoveAtIds(list, i, |h.conns|);
      Ok((Nodes.Disconnect(h1, a, b, false), N2))
  }

  // ------------------------------------------------------------ construction

  /** Node `n` is unlinked, of type `kind`, and owns self-connection `c` of weight 0. */
  predicate FreshAt(h: Heap, n: nat, kind: Kind, c: nat) {
    && n < |h.nodes| && c < |h.conns|
    && h.nodes[n].kind == kind
    && h.nodes[n].inConns == [] && h.nodes[n].outConns == [] && h.nodes[n].gated == []
    && h.nodes[n].selfConn == c
    && h.conns[c] == Connections.New(n, n, Some(0.0), 0.0)
  }

  /** Fresh nodes of the given types, appended to the arena in order. */
  function FreshNodes(h: Heap, kinds: seq<Kind>, draw: nat -> real): (r: (Heap, seq<nat>))
    requires Wf(h)
    ensures Wf(r.0) && |r.0.nodes| == |h.nodes| + |kinds| && |r.1| == |kinds|
    ensures |r.0.conns| == |h.conns| + |kinds|
    ensures forall k | 0 <= k < |h.nodes| :: r.0.nodes[k] == h.nodes[k]
    ensures forall k | 0 <= k < |h.conns| :: r.0.conns[k] == h.conns[k]
    ensures forall i | 0 <= i < |kinds| :: r.1[i] == |h.nodes| + i
    ensures forall i | 0 <= i < |kinds| :: FreshAt(r.0, |h.nodes| + i, kinds[i], |h.conns| + i)
    decreases |kinds|
  {
    if kinds == [] then (h, [])
    else
      var last := |kinds| - 1;
      var (h1, ids) := FreshNodes(h, kinds[..last], draw);
      var (h2, id) := NewNode(h1, Some(kinds[last]), draw(|h1.nodes|));
      assert forall k | 0 <= k < |h1.nodes| :: h2.nodes[k] == h1.nodes[k] by {
        forall k | 0 <= k < |h1.nodes| ensures h2.nodes[k] == h1.nodes[k] {
          assert h2.nodes[..|h1.nodes|][k] == h2.nodes[k];
        }
      }
      forall i | 0 <= i < |kinds| ensures FreshAt(h2, |h.nodes| + i, kinds[i], |h.conns| + i) {
        if i < last {
          assert kinds[..last][i] == kinds[i];
          assert FreshAt(h1, |h.nodes| + i, kinds[i], |h.conns| + i);
        }
      }
      (h2, ids + [id])
  }

  /** Fresh nodes carry no cached index. */
  lemma {:induction false} FreshNodesUnindexed(h: Heap, kinds: seq<Kind>, draw: nat -> real)
    requires Wf(h)
    ensures forall i | 0 <= i < |kinds| :: FreshNodes(h, kinds, draw).0.nodes[FreshNodes(h, kinds, draw).1[i]].index == None
    decreases |kinds|
  {
    if kinds != [] {
      var last := |kinds| - 1;
      FreshNodesUnindexed(h, kinds[..last], draw);
      var (h1, ids) := FreshNodes(h, kinds[..last], draw);
      var (h2, id) := NewNode(h1, Some(kinds[last]), draw(|h1.nodes|));
      assert FreshNodes(h, kinds, draw) == (h2, ids + [id]);
      forall i | 0 <= i < |kinds| ensures h2.nodes[(ids + [id])[i]].index == None {
        if i < last {
          assert (ids + [id])[i] == ids[i] && ids[i] < |h1.nodes|;
          assert h1.nodes[ids[i]].index == None;
          assert h2.nodes[..|h1.nodes|][ids[i]] == h2.nodes[ids[i]];
        } else {
          assert (ids + [id])[i] == id;
        }
      }
    }
  }

  /** The node types of a new network: `input` inputs, then `output` outputs. */
  function Layout(input: nat, output: nat): (ks: seq<Kind>)
    ensures |ks| == input + output
    ensures forall i | 0 <= i < |ks| :: ks[i] == (if i < input then Input else Output)
  {
    seq(input + output, i => if i < input then Input else Output)
  }

  /** Both ends of every pair are below `n`. */
  predicate PairsBelow(ps: seq<(nat, nat)>, n: nat) {
    forall i | 0 <= i < |ps| :: ps[i].0 < n && ps[i].1 < n
  }

  /** The pairs (x, b) for b in `ys`. */
  function Row(x: nat, ys: seq<nat>): (ps: seq<(nat, nat)>)
    ensures |ps| == |ys|
    ensures forall j | 0 <= j < |ys| :: ps[j] == (x, ys[j])
  {
    seq(|ys|, j requires 0 <= j < |ys| => (x, ys[j]))
  }

  /** The pairs (a, b) for a in `xs` and b in `ys`, row by row. */
  function Grid(xs: seq<nat>, ys: seq<nat>): (ps: seq<(nat, nat)>)
    ensures |ps| == Flat(|xs|, 0, |ys|)
    ensures forall i, j | 0 <= i < |xs| && 0 <= j < |ys| :: Flat(i, j, |ys|) < |ps| && ps[Flat(i, j, |ys|)] == (xs[i], ys[j])
    ensures forall p | p in ps :: p.0 in xs && p.1 in ys
    decreases |xs|
  {
    if xs == [] then []
    else
      var row := Row(xs[0], ys);
      var rest := Grid(xs[1..], ys);
      var ps := row + rest;
      forall i, j | 0 <= i < |xs| && 0 <= j < |ys| ensures Flat(i, j, |ys|) < |ps| && ps[Flat(i, j, |ys|)] == (xs[i], ys[j]) {
        FlatBelow(i, j, |xs|, |ys|);
        if i > 0 {
          assert xs[i] == xs[1..][i - 1];
        }
      }
      assert forall p | p in ps :: p in row || p in rest;
      ps
  }

  lemma GridBelow(xs: seq<nat>, ys: seq<nat>, n: nat)
    requires IdsBelow(xs, n) && IdsBelow(ys, n)
    ensures PairsBelow(Grid(xs, ys), n)
  {
    var ps := Grid(xs, ys);
    forall i | 0 <= i < |ps| ensures ps[i].0 < n && ps[i].1 < n {
      assert ps[i] in ps;
    }
  }

  /**
    `network.connect` applied to each pair in turn, the `t`-th one with
    weight `ws(k + t)`.
   */
  function ConnectPairs(h: Heap, N: Network, ps: seq<(nat, nat)>, ws: nat -> real, k: nat)
    : (r: Result<(Heap, Network)>)
    requires Wf(h) && PairsBelow(ps, |h.nodes|)
    ensures r.Ok? ==> Wf(r.value.0) && |r.value.0.nodes| == |h.nodes|
    ensures r.Ok? ==> r.value.1 == N.(connections := r.value.1.connections, selfconns := r.value.1.selfconns)
    ensures r.Err? ==> r.error == AlreadyProjecting
    decreases |ps|
  {
    if ps == [] then Ok((h, N))
    else
      var (h1, N1, _) :- Connect(h, N, ps[0].0, ps[0].1, Some(ws(k)), 0.0);
      ConnectPairs(h1, N1, ps[1..], ws, k + 1)
  }

  /**
    `new Network(input, output)`: without both sizes it throws; otherwise
    `input` input nodes and `output` output nodes are created and every
    input is connected to every output. `ws` stands for the random
    initial weights and `biases` for the random initial biases.
   */
  function New(h: Heap, input: Option<nat>, output: Option<nat>, ws: nat -> real, biases: nat -> real)
    : (r: Result<(Heap, Network)>)
    requires Wf(h)
    ensures input.None? || output.None? <==> r == Err(NoSize)
  {
    if input.None? || output.None? then Err(NoSize)
    else
      var (i, o) := (input.value, output.value);
      var (h1, ids) := FreshNodes(h, Layout(i, o), biases);
      var N := Network(i, o, ids, [], [], [], 0.0);
      GridBelow(ids[..i], ids[i..], |h1.nodes|);
      ConnectPairs(h1, N, Grid(ids[..i], ids[i..]), ws, 0)
  }

  // ------------------------------------------------------------- activation

  /** The number of member nodes of type `k`. */
  function CountKind(h: Heap, ids: seq<nat>, k: Kind): nat
    requires IdsBelow(ids, |h.nodes|)
  {
    if ids == [] then 0
    else (if h.nodes[ids[0]].kind == k then 1 else 0) + CountKind(h, ids[1..], k)
  }

  /** The activations of the output nodes among `ids`, in list order. */
  function OutputActivations(h: Heap, ids: seq<nat>): seq<real>
    requires IdsBelow(ids, |h.nodes|)
  {
    if ids == [] then []
    else (if h.nodes[ids[0]].kind == Output then [h.nodes[ids[0]].activation] else []) + OutputActivations(h, ids[1..])
  }

  /** Unfolds OutputActivations at position `i`. */
  lemma OutputActivationsAt(h: Heap, ids: seq<nat>, i: nat)
    requires IdsBelow(ids, |h.nodes|) && i < |ids|
    ensures OutputActivations(h, ids[i..]) ==
      (if h.nodes[ids[i]].kind == Output then [h.nodes[ids[i]].activation] else []) + OutputActivations(h, ids[i + 1..])
  {
    assert ids[i..][1..] == ids[i + 1..];
  }

  lemma {:induction false} CountKindSameKinds(h: Heap, h2: Heap, ids: seq<nat>, k: Kind)
    requires IdsBelow(ids, |h.nodes|) && SameKinds(h, h2)
    ensures CountKind(h2, ids, k) == CountKind(h, ids, k)
    decreases |ids|
  {
    if ids != [] {
      CountKindSameKinds(h, h2, ids[1..], k);
    }
  }

  /**
    One step of `network.activate`: the member at position `i` is
    activated. An input node takes `input[i]` (a missing entry leaves the
    node to compute), an output node contributes its activation to the
    result, and during training any other node first draws its dropout
    mask from `us(i)`.
   */
  function ActivateStep(h: Heap, N: Network, i: nat, input: seq<real>, training: bool, us: Stream,
                        squash: (Squash, real) -> real, derive: (Squash, real) -> real)
    : (r: (Heap, seq<real>))
    requires Wf(h) && Members(h, N) && i < |N.nodes|
    ensures Wf(r.0) && SameShape(h, r.0)
    ensures |r.1| == (if h.nodes[N.nodes[i]].kind == Output then 1 else 0)
    ensures h.nodes[N.nodes[i]].kind == Output ==> r.1 == [r.0.nodes[N.nodes[i]].activation]
    ensures h.nodes[N.nodes[i]].kind == Input && i < |input| ==> r.0.nodes[N.nodes[i]].activation == input[i]
    ensures training && h.nodes[N.nodes[i]].kind != Input && h.nodes[N.nodes[i]].kind != Output ==>
      r.0.nodes[N.nodes[i]].mask == (if us(i) < N.dropout then 0.0 else 1.0)
    ensures !training || h.nodes[N.nodes[i]].kind == Input || h.nodes[N.nodes[i]].kind == Output ==>
      r.0.nodes[N.nodes[i]].mask == h.nodes[N.nodes[i]].mask
    ensures forall k | 0 <= k < |h.nodes| && k != N.nodes[i] :: r.0.nodes[k] == h.nodes[k]
  {
    var n := N.nodes[i];
    var x := h.nodes[n];
    assert NodeWf(x, |h.conns|);
    var masked := training && x.kind != Input && x.kind != Output;
    var h0 := if masked then PutNode(h, n, x.(mask := if us(i) < N.dropout then 0.0 else 1.0)) else h;
    var given := if x.kind == Input && i < |input| then Some(input[i]) else None;
    var (h1, a) := Nodes.Activate(h0, n, given, squash, derive);
    SameShapeTrans(h, h0, h1);
    (h1, if x.kind == Output then [a] else [])
  }

  /** `network.activate(input, training)` from member position `i` on. */
  function ActivateFrom(h: Heap, N: Network, i: nat, input: seq<real>, training: bool, us: Stream,
                        squash: (Squash, real) -> real, derive: (Squash, real) -> real)
    : (r: (Heap, seq<real>))
    requires Wf(h) && Members(h, N) && i <= |N.nodes|
    ensures Wf(r.0) && SameShape(h, r.0)
    ensures |r.1| == CountKind(h, N.nodes[i..], Output)
    ensures r.1 == OutputActivations(r.0, N.nodes[i..])
    ensures forall j | 0 <= j < i :: r.0.nodes[N.nodes[j]] == h.nodes[N.nodes[j]]
    decreases |N.nodes| - i
  {
    if i == |N.nodes| then (h, [])
    else
      var (h1, out) := ActivateStep(h, N, i, input, training, us, squash, derive);
      var (h2, outs) := ActivateFrom(h1, N, i + 1, input, training, us, squash, derive);
      SameShapeTrans(h, h1, h2);
      CountKindSameKinds(h, h1, N.nodes[i + 1..], Output);
      SuffixCons(N.nodes, i);
      OutputActivationsAt(h2, N.nodes, i);
      (h2, out + outs)
  }

  /** `network.activate(input, training)`: one value per output node, in member order. */
  function Activate(h: Heap, N: Network, input: seq<real>, training: bool, us: Stream,
                    squash: (Squash, real) -> real, derive: (Squash, real) -> real)
    : (r: (Heap, seq<real>))
    requires Wf(h) && Members(h, N)
    ensures Wf(r.0) && SameShape(h, r.0)
    ensures |r.1| == CountKind(h, N.nodes, Output)
    ensures r.1 == OutputActivations(r.0, N.nodes)
  {
    assert N.nodes[0..] == N.nodes;
    ActivateFrom(h, N, 0, input, training, us, squash, derive)
  }

  /** `network.noTraceActivate(input)`, from member position `i` on. */
  function NoTraceActivateFrom(h: Heap, N: Network, i: nat, input: seq<real>, squash: (Squash, real) -> real)
    : (r: (Heap, seq<real>))
    requires Wf(h) && Members(h, N) && i <= |N.nodes|
    ensures Wf(r.0) && SameShape(h, r.0)
    ensures |r.1| == CountKind(h, N.nodes[i..], Output)
    ensures r.1 == OutputActivations(r.0, N.nodes[i..])
    ensures forall j | 0 <= j < i :: r.0.nodes[N.nodes[j]] == h.nodes[N.nodes[j]]
    decreases |N.nodes| - i
  {
    if i == |N.nodes| then (h, [])
    else
      var n := N.nodes[i];
      var kind := h.nodes[n].kind;
      var given := if kind == Input && i < |input| then Some(input[i]) else None;
      var (h1, a) := NoTraceActivate(h, n, given, squash);
      var (h2, outs) := NoTraceActivateFrom(h1, N, i + 1, input, squash);
      SameShapeTrans(h, h1, h2);
      CountKindSameKinds(h, h1, N.nodes[i + 1..], Output);
      SuffixCons(N.nodes, i);
      OutputActivationsAt(h2, N.nodes, i);
      (h2, (if kind == Output then [a] else []) + outs)
  }

  // ------------------------------------------------------------ propagation

  /**
    The lowest member position `network.propagate` visits: the hidden loop
    stops above the input members and does not run at all when the input
    and output blocks overlap.
   */
  function FirstVisited(N: Network): (lo: nat)
    requires N.output <= |N.nodes|
    ensures lo <= |N.nodes| - N.output && (lo == N.input || lo == |N.nodes| - N.output)
    ensures N.input <= |N.nodes| - N.output <==> lo == N.input
  {
    if N.input <= |N.nodes| - N.output then N.input else |N.nodes| - N.output
  }

  /**
    Whether `node.propagate` computes with numbers only on every member the
    network visits. Members above the last `output` get no target, so an
    output node there computes `undefined - activation`; a non-output node
    never activated multiplies by an undefined derivative. Either way the
    source goes on with NaN.
   */
  predicate Propagatable(h: Heap, N: Network)
    requires Members(h, N) && N.output <= |N.nodes|
  {
    && (forall i | FirstVisited(N) <= i < |N.nodes| - N.output :: h.nodes[N.nodes[i]].kind != Output)
    && (forall i | FirstVisited(N) <= i < |N.nodes| ::
          h.nodes[N.nodes[i]].kind != Output ==> h.nodes[N.nodes[i]].derivative.Some?)
  }

  /** `node.propagate` on the member at position `i`; the other members keep their state. */
  function PropagateStep(h: Heap, N: Network, i: nat, rate: Option<real>, momentum: Option<real>,
                         update: bool, t: Option<real>): (r: Heap)
    requires Wf(h) && Members(h, N) && i < |N.nodes|
    requires h.nodes[N.nodes[i]].kind == Output ==> t.Some?
    requires h.nodes[N.nodes[i]].kind != Output ==> h.nodes[N.nodes[i]].derivative.Some?
    ensures Wf(r) && SameShape(h, r)
    ensures forall j | 0 <= j < |N.nodes| && j != i :: r.nodes[N.nodes[j]] == h.nodes[N.nodes[j]]
  {
    Nodes.Propagate(h, N.nodes[i], rate, momentum, update, t)
  }

  /** Propagates members at positions `lo` ≤ i < `hi`, from the last down, position i taking `ts(i)`. */
  function PropagateDown(h: Heap, N: Network, lo: nat, hi: nat, rate: Option<real>, momentum: Option<real>,
                         update: bool, ts: nat -> Option<real>): (r: Heap)
    requires Wf(h) && Members(h, N) && lo <= hi <= |N.nodes|
    requires forall i | lo <= i < hi :: h.nodes[N.nodes[i]].kind == Output ==> ts(i).Some?
    requires forall i | lo <= i < hi :: h.nodes[N.nodes[i]].kind != Output ==> h.nodes[N.nodes[i]].derivative.Some?
    ensures Wf(r) && SameShape(h, r)
    ensures forall j | 0 <= j < |N.nodes| && (j < lo || hi <= j) :: r.nodes[N.nodes[j]] == h.nodes[N.nodes[j]]
    decreases hi - lo
  {
    if lo == hi then h
    else
      var h1 := PropagateStep(h, N, hi - 1, rate, momentum, update, ts(hi - 1));
      var r := PropagateDown(h1, N, lo, hi - 1, rate, momentum, update, ts);
      SameShapeTrans(h, h1, r);
      r
  }

  /**
    `network.propagate(rate, momentum, update, target)`: a missing target
    or one whose length is not `output` throws, and so does an `output`
    larger than the member count (the loop reads a member at a negative
    position). Otherwise the last `output` members learn from the target,
    last to first, and then the hidden members, last to first. Input
    members are never visited. Where the source would go on with NaN
    values, the result is `NotANumber`.
   */
  function Propagate(h: Heap, N: Network, rate: Option<real>, momentum: Option<real>, update: bool,
                     target: Option<seq<real>>): (r: Result<Heap>)
    requires Wf(h) && Members(h, N)
    ensures (target.None? || |target.value| != N.output) ==> r == Err(TargetLength)
    ensures target.Some? && |target.value| == N.output > |N.nodes| ==> r == Err(Undefined)
    ensures target.Some? && |target.value| == N.output <= |N.nodes| && !Propagatable(h, N) ==> r == Err(NotANumber)
    ensures r.Ok? <==> target.Some? && |target.value| == N.output <= |N.nodes| && Propagatable(h, N)
    ensures r.Ok? ==> Wf(r.value) && SameShape(h, r.value)
    ensures r.Ok? ==> forall i | 0 <= i < FirstVisited(N) :: r.value.nodes[N.nodes[i]] == h.nodes[N.nodes[i]]
  {
    if target.None? || |target.value| != N.output then Err(TargetLength)
    else if N.output > |N.nodes| then Err(Undefined)
    else if !Propagatable(h, N) then Err(NotANumber)
    else
      var t := target.value;
      var len := |N.nodes|;
      var lo := FirstVisited(N);
      var ts := (i: nat) => if len - N.output <= i < len then Some(t[i - (len - N.output)]) else None;
      var h1 := PropagateDown(h, N, len - N.output, len, rate, momentum, update, ts);
      var none := (i: nat) => None;
      var h2 := PropagateDown(h1, N, lo, len - N.output, rate, momentum, update, none);
      SameShapeTrans(h, h1, h2);
      Ok(h2)
  }

  /** `node.clear()` on the member at position `i`; the other members are unchanged. */
  function ClearStep(h: Heap, N: Network, i: nat): (r: Heap)
    requires Wf(h) && Members(h, N) && i < |N.nodes|
    ensures Wf(r) && SameShape(h, r)
    ensures r.nodes[N.nodes[i]].activation == 0.0 && r.nodes[N.nodes[i]].state == 0.0
    ensures forall j | 0 <= j < |N.nodes| && j != i :: r.nodes[N.nodes[j]] == h.nodes[N.nodes[j]]
  {
    Nodes.Clear(h, N.nodes[i])
  }

  /** `network.clear()` from member position `i` on: each of those members is cleared. */
  function ClearFrom(h: Heap, N: Network, i: nat): (r: Heap)
    requires Wf(h) && Members(h, N) && i <= |N.nodes|
    ensures Wf(r) && SameShape(h, r)
    ensures forall j | i <= j < |N.nodes| :: r.nodes[N.nodes[j]].activation == 0.0 && r.nodes[N.nodes[j]].state == 0.0
    ensures forall j | 0 <= j < i :: r.nodes[N.nodes[j]] == h.nodes[N.nodes[j]]
    decreases |N.nodes| - i
  {
    if i == |N.nodes| then h
    else
      var h1 := ClearStep(h, N, i);
      var r := ClearFrom(h1, N, i + 1);
      SameShapeTrans(h, h1, r);
      r
  }

  /** `network.clear()`: every member is cleared. */
  function Clear(h: Heap, N: Network): (r: Heap)
    requires Wf(h) && Members(h, N)
    ensures Wf(r) && SameShape(h, r)
    ensures forall j | 0 <= j < |N.nodes| :: r.nodes[N.nodes[j]].activation == 0.0 && r.nodes[N.nodes[j]].state == 0.0
  {
    ClearFrom(h, N, 0)
  }
}
