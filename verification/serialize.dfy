/**
  `Network.toJSON`, `Network.fromJSON` and `Network.merge`.

  The JSON form of a network lists its nodes (bias, squash, type and
  position) and its `connections` (end indices, weight and gater index);
  `selfconns` and `gates` are not written. A connection record has the
  shape of a crossover gene, so the model writes it as a Genes.Gene: the
  ends and the gater are the nodes' cached `index` fields, a gater of None
  is `null`. The JSON object is handed from toJSON to fromJSON as it is,
  so an `undefined` index stays `undefined` (Undef).
 */
module Serialize {
  import opened Base
  import opened Methods
  import opened Nodes
  import opened Networks
  import opened Genes
  import opened Crossover
  import opened Constructor

  /** A node record: bias, squash, type and the node's position. */
  datatype NodeEntry = NodeEntry(bias: real, squash: Squash, kind: Kind, index: nat)

  /** The whole record `toJSON` returns. */
  datatype NetworkJson = NetworkJson(
    nodes: seq<NodeEntry>,
    connections: seq<Gene>,
    input: nat,
    output: nat,
    dropout: real)

  // ------------------------------------------------------------------ toJSON

  /** The record of the node at position `i`. */
  function EntryOf(h: Heap, n: nat, i: nat): NodeEntry
    requires n < |h.nodes|
  {
    NodeEntry(h.nodes[n].bias, h.nodes[n].squash, h.nodes[n].kind, i)
  }

  /**
    `network.toJSON()`: node records carry their position, connection
    records the cached `index` of their ends and gater.
   */
  function ToJson(h: Heap, N: Network): (j: NetworkJson)
    requires Wf(h) && Indexed(h, N)
  {
    NetworkJson(
      seq(|N.nodes|, i requires 0 <= i < |N.nodes| => EntryOf(h, N.nodes[i], i)),
      GenesOf(h, N.connections),
      N.input, N.output, N.dropout)
  }

  // ---------------------------------------------------------------- fromJSON

  /**
    Node `n`, owning self-connection `c`, is what record `e` at position
    `i` becomes: a fresh node of the record's type with its bias and
    squash and `index` i.
   */
  predicate Restored(e: NodeEntry, i: nat, h: Heap, n: nat, c: nat) {
    && FreshAt(h, n, e.kind, c)
    && h.nodes[n].bias == e.bias
    && h.nodes[n].squash == e.squash
    && h.nodes[n].index == Some(i)
  }

  /** `new Node(type)` with bias and squash then written, and `index = i`. */
  function MakeNode(h: Heap, e: NodeEntry, i: nat): (r: (Heap, nat))
    requires Wf(h)
    ensures Wf(r.0) && r.1 == |h.nodes| && |r.0.nodes| == |h.nodes| + 1
    ensures forall k | 0 <= k < |h.nodes| :: r.0.nodes[k] == h.nodes[k]
    ensures r.0.conns == h.conns + [Connections.New(r.1, r.1, Some(0.0), 0.0)]
    ensures Restored(e, i, r.0, r.1, |h.conns|)
  {
    // the random bias the constructor draws is overwritten at once
    var (h1, n) := NewNode(h, Some(e.kind), 0.0);
    assert forall k | 0 <= k < |h.nodes| :: h1.nodes[k] == h.nodes[k] by {
      forall k | 0 <= k < |h.nodes| ensures h1.nodes[k] == h.nodes[k] {
        assert h1.nodes[..|h.nodes|][k] == h1.nodes[k];
      }
    }
    var y := h1.nodes[n];
    assert NodeWf(y, |h1.conns|);
    (PutNode(h1, n, y.(bias := e.bias, squash := e.squash, index := Some(i))), n)
  }

  /** The first `k` records became nodes appended in order. */
  predicate MadeNodes(h: Heap, es: seq<NodeEntry>, k: nat, h2: Heap, ids: seq<nat>)
    requires k <= |es|
  {
    && Wf(h2) && |h2.nodes| == |h.nodes| + k && |h2.conns| == |h.conns| + k && |ids| == k
    && (forall m | 0 <= m < |h.nodes| :: h2.nodes[m] == h.nodes[m])
    && (forall m | 0 <= m < |h.conns| :: h2.conns[m] == h.conns[m])
    && (forall i | 0 <= i < k :: ids[i] == |h.nodes| + i && Restored(es[i], i, h2, ids[i], |h.conns| + i))
  }

  lemma MakeNodesStep(h: Heap, es: seq<NodeEntry>, k: nat, h1: Heap, ids: seq<nat>)
    requires 0 < k <= |es| && MadeNodes(h, es, k - 1, h1, ids)
    ensures var (h2, n) := MakeNode(h1, es[k - 1], k - 1);
      MadeNodes(h, es, k, h2, ids + [n])
  {
    var (h2, n) := MakeNode(h1, es[k - 1], k - 1);
    forall i | 0 <= i < k - 1 ensures Restored(es[i], i, h2, ids[i], |h.conns| + i) {
      assert Restored(es[i], i, h1, ids[i], |h.conns| + i);
    }
  }

  /** The node loop of `fromJSON` over the first `k` records. */
  function MakeNodes(h: Heap, es: seq<NodeEntry>, k: nat): (r: (Heap, seq<nat>))
    requires Wf(h) && k <= |es|
    ensures MadeNodes(h, es, k, r.0, r.1)
  {
    if k == 0 then (h, [])
    else
      var (h1, ids) := MakeNodes(h, es, k - 1);
      MakeNodesStep(h, es, k, h1, ids);
      var (h2, n) := MakeNode(h1, es[k - 1], k - 1);
      (h2, ids + [n])
  }

  /** `network.nodes[i]` for an index read from JSON: undefined when absent or out of range. */
  function Lookup(ids: seq<nat>, i: Index): (r: Option<nat>)
    ensures r.Some? <==> i.Pos? && i.p < |ids|
    ensures r.Some? ==> r.value == ids[i.p]
  {
    if i.Pos? && i.p < |ids| then Some(ids[i.p]) else None
  }

  /**
    One connection record replayed: `network.connect(from, to, weight)`
    and, for a record with a gater, `network.gate(gater, <last of
    connections>)`. An undefined end throws a TypeError inside connect, an
    undefined gater is not a member, and gating the last entry of an empty
    `connections` list reads a property of undefined.
   */
  function WireOne(h: Heap, N: Network, g: Gene): (r: Result<(Heap, Network)>)
    requires Wf(h) && Indexed(h, N)
    ensures r.Ok? ==> Wf(r.value.0) && Indexed(r.value.0, r.value.1) && SameValues(h, r.value.0) && Grows(h, r.value.0)
    ensures r.Ok? ==> N.(connections := r.value.1.connections, selfconns := r.value.1.selfconns,
                         gates := r.value.1.gates) == r.value.1
    ensures r.Ok? ==> |r.value.1.connections| + |r.value.1.selfconns| == |N.connections| + |N.selfconns| + 1
    ensures r.Err? ==> r.error in {Undefined, AlreadyProjecting, NotMember}
  {
    var (a, b) := (Lookup(N.nodes, g.from), Lookup(N.nodes, g.to));
    if a.None? || b.None? then Err(Undefined)
    else
      ConnectValues(h, N, a.value, b.value, Some(g.weight), 0.0);
      var (h1, N1, _) :- Networks.Connect(h, N, a.value, b.value, Some(g.weight), 0.0);
      if g.gater.None? then Ok((h1, N1))
      else
        var x := Lookup(N.nodes, g.gater.value);
        if x.None? then Err(NotMember)
        else if N1.connections == [] then Err(Undefined)
        else
          var c := N1.connections[|N1.connections| - 1];
          GateValues(h1, N1, x.value, c);
          Networks.Gate(h1, N1, x.value, c)
  }

  /** The connection loop of `fromJSON` from record `k` on; the first record that throws stops it. */
  function Wire(h: Heap, N: Network, cs: seq<Gene>, k: nat): (r: Result<(Heap, Network)>)
    requires Wf(h) && Indexed(h, N) && k <= |cs|
    ensures r.Ok? ==> Wf(r.value.0) && Indexed(r.value.0, r.value.1) && SameValues(h, r.value.0) && Grows(h, r.value.0)
    ensures r.Ok? ==> N.(connections := r.value.1.connections, selfconns := r.value.1.selfconns,
                         gates := r.value.1.gates) == r.value.1
    ensures r.Ok? ==> |r.value.1.connections| + |r.value.1.selfconns| == |N.connections| + |N.selfconns| + |cs| - k
    ensures r.Err? ==> r.error in {Undefined, AlreadyProjecting, NotMember}
    decreases |cs| - k
  {
    if k == |cs| then Ok((h, N))
    else
      var (h1, N1) :- WireOne(h, N, cs[k]);
      Wire(h1, N1, cs, k + 1)
  }

  /**
    `Network.fromJSON(json)`: the nodes are rebuilt in order, each with its
    record's position as `index`, and the connections are replayed. The
    nodes and connections `new Network(input, output)` makes and fromJSON
    discards at once are not allocated.
   */
  function FromJson(h: Heap, j: NetworkJson): (r: Result<(Heap, Network)>)
    requires Wf(h)
    ensures r.Ok? ==>
      && Wf(r.value.0) && Indexed(r.value.0, r.value.1) && Grows(h, r.value.0)
      && r.value.1.input == j.input && r.value.1.output == j.output && r.value.1.dropout == j.dropout
      && |r.value.1.nodes| == |j.nodes| && |r.value.0.nodes| == |h.nodes| + |j.nodes|
      && (forall i | 0 <= i < |j.nodes| ::
            && r.value.1.nodes[i] == |h.nodes| + i
            && r.value.0.nodes[r.value.1.nodes[i]].bias == j.nodes[i].bias
            && r.value.0.nodes[r.value.1.nodes[i]].squash == j.nodes[i].squash
            && r.value.0.nodes[r.value.1.nodes[i]].kind == j.nodes[i].kind
            && r.value.0.nodes[r.value.1.nodes[i]].index == Some(i))
      && |r.value.1.connections| + |r.value.1.selfconns| == |j.connections|
    ensures r.Ok? ==> forall n | 0 <= n < |h.nodes| :: r.value.0.nodes[n].kind == h.nodes[n].kind
    ensures r.Err? ==> r.error in {Undefined, AlreadyProjecting, NotMember}
  {
    var (h1, ids) := MakeNodes(h, j.nodes, |j.nodes|);
    var N := Network(j.input, j.output, ids, [], [], [], j.dropout);
    Wire(h1, N, j.connections, 0)
  }

  // -------------------------------------------------------------- round trip

  /** Every member's cached `index` is its position. */
  predicate AtPositions(h: Heap, N: Network)
    requires IdsBelow(N.nodes, |h.nodes|)
  {
    forall i | 0 <= i < |N.nodes| :: h.nodes[N.nodes[i]].index == Some(i)
  }

  /**
    A network whose `connections` replay: members without repeats, every
    connection between two distinct members and gated, if at all, by a
    member, and no two connections between the same pair.
   */
  predicate Replayable(h: Heap, N: Network) {
    && Wf(h) && Indexed(h, N) && Distinct(N.nodes)
    && (forall k | 0 <= k < |N.connections| ::
          && h.conns[N.connections[k]].from in N.nodes
          && h.conns[N.connections[k]].to in N.nodes
          && h.conns[N.connections[k]].from != h.conns[N.connections[k]].to
          && (h.conns[N.connections[k]].gater.Some? ==> h.conns[N.connections[k]].gater.value in N.nodes))
    && (forall k1, k2 | 0 <= k1 < k2 < |N.connections| ::
          || h.conns[N.connections[k1]].from != h.conns[N.connections[k2]].from
          || h.conns[N.connections[k1]].to != h.conns[N.connections[k2]].to)
  }

  /** The position of a member. */
  function PosOf(N: Network, n: nat): (i: nat)
    requires n in N.nodes
    ensures i < |N.nodes| && N.nodes[i] == n
  {
    IndexOf(N.nodes, n)
  }

  /** Connection `c` as a link between member positions. */
  function LinkOfConn(h: Heap, N: Network, c: nat): Link
    requires c < |h.conns| && h.conns[c].from in N.nodes && h.conns[c].to in N.nodes
    requires h.conns[c].gater.Some? ==> h.conns[c].gater.value in N.nodes
  {
    var x := h.conns[c];
    Link(PosOf(N, x.from), PosOf(N, x.to), x.weight, if x.gater.Some? then Some(PosOf(N, x.gater.value)) else None)
  }

  /** The links of `connections`, in order. */
  function Replay(h: Heap, N: Network): (plan: seq<Link>)
    requires Replayable(h, N)
    ensures |plan| == |N.connections|
    ensures forall k | 0 <= k < |N.connections| :: plan[k] == LinkOfConn(h, N, N.connections[k])
  {
    seq(|N.connections|, k requires 0 <= k < |N.connections| => LinkOfConn(h, N, N.connections[k]))
  }

  /** The record a link is written as when every index is a position. */
  function Entry(l: Link): Gene {
    Gene(l.weight, Pos(l.from), Pos(l.to), if l.gater.Some? then Some(Pos(l.gater.value)) else None)
  }

  lemma ReplayShape(h: Heap, N: Network)
    requires Replayable(h, N)
    ensures LinksBelow(Replay(h, N), |N.nodes|) && PairsDistinct(Replay(h, N))
    ensures forall k | 0 <= k < |N.connections| :: Replay(h, N)[k].from != Replay(h, N)[k].to
  {
    var plan := Replay(h, N);
    forall i, j | 0 <= i < j < |plan| ensures plan[i].from != plan[j].from || plan[i].to != plan[j].to {
      var (x, y) := (h.conns[N.connections[i]], h.conns[N.connections[j]]);
      assert N.nodes[plan[i].from] == x.from && N.nodes[plan[j].from] == y.from;
      assert N.nodes[plan[i].to] == x.to && N.nodes[plan[j].to] == y.to;
    }
  }

  /** With indices at positions, toJSON writes each connection as the record of its link. */
  lemma ToJsonEntries(h: Heap, N: Network)
    requires Replayable(h, N) && AtPositions(h, N)
    ensures forall k | 0 <= k < |N.connections| :: ToJson(h, N).connections[k] == Entry(Replay(h, N)[k])
  {
    forall k | 0 <= k < |N.connections| ensures ToJson(h, N).connections[k] == Entry(Replay(h, N)[k]) {
      var x := h.conns[N.connections[k]];
      assert h.nodes[N.nodes[PosOf(N, x.from)]].index == Some(PosOf(N, x.from));
      assert h.nodes[N.nodes[PosOf(N, x.to)]].index == Some(PosOf(N, x.to));
      if x.gater.Some? {
        assert h.nodes[N.nodes[PosOf(N, x.gater.value)]].index == Some(PosOf(N, x.gater.value));
      }
    }
  }

  /**
    Replaying the record of a link between two distinct nodes that are not
    yet joined is laying the link as crossOver does: connecting with the
    weight given is connecting and then writing the weight.
   */
  lemma WireOneIsLay(h: Heap, N: Network, l: Link)
    requires Wf(h) && Indexed(h, N) && Within(l, |N.nodes|)
    requires N.nodes[l.from] != N.nodes[l.to] && !IsProjectingTo(h, N.nodes[l.from], N.nodes[l.to])
    ensures Lay(h, N, l, 0.0).Ok?
    ensures WireOne(h, N, Entry(l)) == Ok((Lay(h, N, l, 0.0).value.0, Lay(h, N, l, 0.0).value.1))
  {
    var (a, b) := (N.nodes[l.from], N.nodes[l.to]);
    JoinWeighted(h, N, a, b, l.weight);
    var (h1, N1, cs) := Networks.Connect(h, N, a, b, Some(l.weight), 0.0).value;
    var c := |h.conns|;
    assert Lookup(N.nodes, Entry(l).from) == Some(a) && Lookup(N.nodes, Entry(l).to) == Some(b);
    if l.gater.Some? {
      var g := N.nodes[l.gater.value];
      assert Lookup(N.nodes, Entry(l).gater.value) == Some(g);
      assert N1.connections[|N1.connections| - 1] == c;
      var r := Networks.Gate(h1, N1, g, c);
      assert r.Ok? && Lay(h, N, l, 0.0) == Ok((r.value.0, r.value.1, c));
    }
  }

  lemma {:induction false} WireIsBuild(h: Heap, N: Network, cs: seq<Gene>, plan: seq<Link>, made: seq<nat>)
    requires Built(h, N, plan, made) && |cs| == |plan|
    requires forall k | 0 <= k < |plan| :: cs[k] == Entry(plan[k]) && plan[k].from != plan[k].to
    ensures Wire(h, N, cs, |made|) == Ok((Build(h, N, plan, made).0, Build(h, N, plan, made).1))
    decreases |plan| - |made|
  {
    if |made| < |plan| {
      NotYetProjecting(h, N, plan, made);
      var l := plan[|made|];
      WireOneIsLay(h, N, l);
      var (h2, N2, c) := Lay(h, N, l, 0.0).value;
      BuildStep(h, N, plan, made, h2, N2, c);
      WireIsBuild(h2, N2, cs, plan, made + [c]);
    }
  }

  lemma ReplayStart(h0: Heap, es: seq<NodeEntry>, h1: Heap, ids: seq<nat>, N0: Network, plan: seq<Link>)
    requires Wf(h0) && MadeNodes(h0, es, |es|, h1, ids)
    requires N0.nodes == ids && N0.connections == [] && N0.gates == [] && N0.selfconns == []
    requires LinksBelow(plan, |ids|) && PairsDistinct(plan)
    ensures Built(h1, N0, plan, [])
  {
    forall p | 0 <= p < |ids| ensures FreshAt(h1, ids[p], es[p].kind, |h0.conns| + p) {
      assert Restored(es[p], p, h1, ids[p], |h0.conns| + p);
    }
  }

  /** Member `a` of N and member `b` of N2 stand at the same position. */
  predicate SamePlace(N: Network, N2: Network, a: nat, b: nat) {
    exists i | 0 <= i < |N.nodes| && i < |N2.nodes| :: N.nodes[i] == a && N2.nodes[i] == b
  }

  /** Node by node, in order, the same bias, squash and type. */
  predicate NodesMirror(h: Heap, N: Network, h2: Heap, N2: Network)
    requires Wf(h) && Indexed(h, N) && Wf(h2) && Indexed(h2, N2)
  {
    && |N2.nodes| == |N.nodes|
    && forall i | 0 <= i < |N.nodes| ::
         && h2.nodes[N2.nodes[i]].bias == h.nodes[N.nodes[i]].bias
         && h2.nodes[N2.nodes[i]].squash == h.nodes[N.nodes[i]].squash
         && h2.nodes[N2.nodes[i]].kind == h.nodes[N.nodes[i]].kind
  }

  /**
    Connection by connection, in order, the same ends and gater by
    position and the same weight.
   */
  predicate LinksMirror(h: Heap, N: Network, h2: Heap, N2: Network)
    requires Wf(h) && Indexed(h, N) && Wf(h2) && Indexed(h2, N2)
  {
    && |N2.connections| == |N.connections|
    && forall k | 0 <= k < |N.connections| ::
         && SamePlace(N, N2, h.conns[N.connections[k]].from, h2.conns[N2.connections[k]].from)
         && SamePlace(N, N2, h.conns[N.connections[k]].to, h2.conns[N2.connections[k]].to)
         && h2.conns[N2.connections[k]].weight == h.conns[N.connections[k]].weight
         && (h2.conns[N2.connections[k]].gater.Some? <==> h.conns[N.connections[k]].gater.Some?)
         && (h.conns[N.connections[k]].gater.Some? && h2.conns[N2.connections[k]].gater.Some? ==>
               SamePlace(N, N2, h.conns[N.connections[k]].gater.value, h2.conns[N2.connections[k]].gater.value))
  }

  /** (h2, N2) is a copy of (h, N): the same sizes, dropout, nodes and ordered connections. */
  predicate Mirrors(h: Heap, N: Network, h2: Heap, N2: Network)
    requires Wf(h) && Indexed(h, N) && Wf(h2) && Indexed(h2, N2)
  {
    && N2.input == N.input && N2.output == N.output && N2.dropout == N.dropout
    && NodesMirror(h, N, h2, N2)
    && LinksMirror(h, N, h2, N2)
  }

  lemma ReplayMirrors(h: Heap, N: Network, h2: Heap, N2: Network, plan: seq<Link>, made: seq<nat>)
    requires Replayable(h, N) && plan == Replay(h, N)
    requires Built(h2, N2, plan, made) && |made| == |plan| && N2.connections == made
    requires |N2.nodes| == |N.nodes|
    ensures LinksMirror(h, N, h2, N2)
  {
    forall k | 0 <= k < |N.connections|
      ensures
      && SamePlace(N, N2, h.conns[N.connections[k]].from, h2.conns[N2.connections[k]].from)
      && SamePlace(N, N2, h.conns[N.connections[k]].to, h2.conns[N2.connections[k]].to)
      && h2.conns[N2.connections[k]].weight == h.conns[N.connections[k]].weight
      && (h2.conns[N2.connections[k]].gater.Some? <==> h.conns[N.connections[k]].gater.Some?)
      && (h.conns[N.connections[k]].gater.Some? && h2.conns[N2.connections[k]].gater.Some? ==>
            SamePlace(N, N2, h.conns[N.connections[k]].gater.value, h2.conns[N2.connections[k]].gater.value))
    {
      var l := plan[k];
      assert Carries(h2, N2.nodes, l, made[k]);
      var x := h.conns[N.connections[k]];
      assert N.nodes[l.from] == x.from && N.nodes[l.to] == x.to;
      if x.gater.Some? {
        assert N.nodes[l.gater.value] == x.gater.value;
      }
    }
  }

  /** What `fromJSON` builds from the record of (h, N) on top of `h0`. */
  function Rebuilt(h: Heap, N: Network, h0: Heap): (Heap, Network, seq<nat>)
    requires Wf(h0) && Replayable(h, N)
  {
    var j := ToJson(h, N);
    var (h1, ids) := MakeNodes(h0, j.nodes, |j.nodes|);
    var N0 := Network(j.input, j.output, ids, [], [], [], j.dropout);
    ReplayShape(h, N);
    ReplayStart(h0, j.nodes, h1, ids, N0, Replay(h, N));
    Build(h1, N0, Replay(h, N), [])
  }

  lemma RebuiltIsBuilt(h: Heap, N: Network, h0: Heap)
    requires Wf(h0) && Replayable(h, N) && AtPositions(h, N)
    ensures var (h2, N2, made) := Rebuilt(h, N, h0);
      && FromJson(h0, ToJson(h, N)) == Ok((h2, N2))
      && Built(h2, N2, Replay(h, N), made) && |made| == |N.connections|
      && N2.connections == made && N2.selfconns == []
  {
    var j := ToJson(h, N);
    var (h1, ids) := MakeNodes(h0, j.nodes, |j.nodes|);
    var N0 := Network(j.input, j.output, ids, [], [], [], j.dropout);
    var plan := Replay(h, N);
    ReplayShape(h, N);
    ToJsonEntries(h, N);
    ReplayStart(h0, j.nodes, h1, ids, N0, plan);
    WireIsBuild(h1, N0, j.connections, plan, []);
    var (h2, N2, made) := Build(h1, N0, plan, []);
    PlainAll(plan, made);
  }

  /**
    `Network.fromJSON(network.toJSON())` copies a replayable network whose
    nodes carry their positions as `index`: the copy has the same sizes,
    dropout, nodes and ordered connections, and no self-connections.
   */
  lemma RoundTrip(h: Heap, N: Network, h0: Heap)
    requires Wf(h0) && Replayable(h, N) && AtPositions(h, N)
    ensures var r := FromJson(h0, ToJson(h, N));
      && r.Ok?
      && Mirrors(h, N, r.value.0, r.value.1)
      && r.value.1.selfconns == []
  {
    RebuiltIsBuilt(h, N, h0);
    var (h2, N2, made) := Rebuilt(h, N, h0);
    ReplayMirrors(h, N, h2, N2, Replay(h, N), made);
    var j := ToJson(h, N);
    forall i | 0 <= i < |N.nodes|
      ensures && h2.nodes[N2.nodes[i]].bias == h.nodes[N.nodes[i]].bias
              && h2.nodes[N2.nodes[i]].squash == h.nodes[N.nodes[i]].squash
              && h2.nodes[N2.nodes[i]].kind == h.nodes[N.nodes[i]].kind
    {
      assert j.nodes[i] == EntryOf(h, N.nodes[i], i);
    }
  }

  // ------------------------------------------------ stale indices in toJSON

  /**
    toJSON writes the cached `index` of a connection's ends, and only
    crossOver and fromJSON ever set it. When the first connection starts at
    a node whose index was never set, fromJSON reads `undefined` as the
    position of its from node and connect throws.
   */
  lemma ToJsonThrows(h: Heap, N: Network, h0: Heap)
    requires Wf(h0) && Wf(h) && Indexed(h, N) && N.connections != []
    requires h.conns[N.connections[0]].from < |h.nodes|
    requires h.nodes[h.conns[N.connections[0]].from].index == None
    ensures FromJson(h0, ToJson(h, N)) == Err(Undefined)
  {
    var j := ToJson(h, N);
    assert j.connections[0].from == Undef;
    var (h1, ids) := MakeNodes(h0, j.nodes, |j.nodes|);
    var N0 := Network(j.input, j.output, ids, [], [], [], j.dropout);
    assert WireOne(h1, N0, j.connections[0]) == Err(Undefined);
  }

  /**
    So a network fresh from `new Network(input, output)` with at least one
    input and one output does not survive `fromJSON(toJSON())`: its nodes
    carry no index.
   */
  lemma NewDoesNotRoundTrip(h: Heap, input: nat, output: nat, ws: nat -> real, biases: nat -> real, h0: Heap)
    requires Wf(h) && Wf(h0) && input > 0 && output > 0
    ensures var r := Networks.New(h, Some(input), Some(output), ws, biases);
      && r.Ok? && Created(h, input, output, ws, r.value.0, r.value.1)
      && FromJson(h0, ToJson(r.value.0, r.value.1)) == Err(Undefined)
  {
    NewShape(h, input, output, ws, biases);
    var r := Networks.New(h, Some(input), Some(output), ws, biases).value;
    assert Flat(0, 0, output) == 0;
    ToJsonThrows(r.0, r.1, h0);
  }

  /**
    toJSON as evidently intended: every member's index is first set to its
    position, as crossOver does for its parents, and the record written
    from that.
   */
  function ToJsonStamped(h: Heap, N: Network): (j: NetworkJson)
    requires Wf(h) && Indexed(h, N)
  {
    ToJson(Stamp(h, N.nodes, |N.nodes|), N)
  }

  /** Refreshing the cached indices changes nothing Mirrors looks at. */
  lemma StampMirrors(h: Heap, N: Network, h2: Heap, N2: Network)
    requires Wf(h) && Indexed(h, N) && Wf(h2) && Indexed(h2, N2)
    requires Mirrors(Stamp(h, N.nodes, |N.nodes|), N, h2, N2)
    ensures Mirrors(h, N, h2, N2)
  {
    StampNodesMirror(h, N, h2, N2);
    StampLinksMirror(h, N, h2, N2);
  }

  lemma StampNodesMirror(h: Heap, N: Network, h2: Heap, N2: Network)
    requires Wf(h) && Indexed(h, N) && Wf(h2) && Indexed(h2, N2)
    requires NodesMirror(Stamp(h, N.nodes, |N.nodes|), N, h2, N2)
    ensures NodesMirror(h, N, h2, N2)
  {
    var hs := Stamp(h, N.nodes, |N.nodes|);
    forall i | 0 <= i < |N.nodes|
      ensures && h2.nodes[N2.nodes[i]].bias == h.nodes[N.nodes[i]].bias
              && h2.nodes[N2.nodes[i]].squash == h.nodes[N.nodes[i]].squash
              && h2.nodes[N2.nodes[i]].kind == h.nodes[N.nodes[i]].kind
    {
      assert hs.nodes[N.nodes[i]] == h.nodes[N.nodes[i]].(index := hs.nodes[N.nodes[i]].index);
    }
  }

  lemma StampLinksMirror(h: Heap, N: Network, h2: Heap, N2: Network)
    requires Wf(h) && Indexed(h, N) && Wf(h2) && Indexed(h2, N2)
    requires LinksMirror(Stamp(h, N.nodes, |N.nodes|), N, h2, N2)
    ensures LinksMirror(h, N, h2, N2)
  {
    assert Stamp(h, N.nodes, |N.nodes|).conns == h.conns;
  }

  /**
    With the corrected toJSON every replayable network survives the round
    trip, whatever its cached indices held.
   */
  lemma RoundTripStamped(h: Heap, N: Network, h0: Heap)
    requires Wf(h0) && Replayable(h, N)
    ensures var r := FromJson(h0, ToJsonStamped(h, N));
      && r.Ok?
      && Mirrors(h, N, r.value.0, r.value.1)
      && r.value.1.selfconns == []
  {
    var hs := Stamp(h, N.nodes, |N.nodes|);
    StampDistinct(h, N.nodes);
    assert Replayable(hs, N);
    RoundTrip(hs, N, h0);
    var r := FromJson(h0, ToJson(hs, N));
    StampMirrors(h, N, r.value.0, r.value.1);
  }
}
