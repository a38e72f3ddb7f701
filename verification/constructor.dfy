/**
  What `new Network(input, output)` builds.

  The constructor connects every input node to every output node in row
  order: input by input, and for each input every output in turn. Laying
  those connections one by one is the crossover build loop over a plan of
  links without gaters, so the build invariant of Crossover describes the
  result.
 */
module Constructor {
  import opened Base
  import opened Nodes
  import opened Networks
  import opened Genes
  import opened Crossover

  /** No pair occurs twice in the grid of two sequences without repeats. */
  lemma {:induction false} GridDistinct(xs: seq<nat>, ys: seq<nat>)
    requires Distinct(xs) && Distinct(ys)
    ensures Distinct(Grid(xs, ys))
    decreases |xs|
  {
    if xs != [] {
      var row := Row(xs[0], ys);
      var rest := Grid(xs[1..], ys);
      GridDistinct(xs[1..], ys);
      assert Grid(xs, ys) == row + rest;
      forall s, t | 0 <= s < t < |row + rest| ensures (row + rest)[s] != (row + rest)[t] {
        if s < |row| && t >= |row| {
          assert rest[t - |row|] in rest;
          assert (row + rest)[t].0 in xs[1..];
        } else if t >= |row| {
          assert (row + rest)[s] == rest[s - |row|];
        }
      }
    }
  }

  /**
    The links the constructor lays, read off the pairs of nodes it
    connects: node `base + p` stands at position p, and the t-th pair gets
    the t-th random weight.
   */
  function GridLinks(ps: seq<(nat, nat)>, base: nat, ws: nat -> real): (ls: seq<Link>)
    requires forall t | 0 <= t < |ps| :: base <= ps[t].0 && base <= ps[t].1
    ensures |ls| == |ps|
    ensures forall t | 0 <= t < |ps| ::
      ls[t] == Link(ps[t].0 - base, ps[t].1 - base, ws(t), None)
  {
    seq(|ps|, t requires 0 <= t < |ps| => Link(ps[t].0 - base, ps[t].1 - base, ws(t), None))
  }

  /** Nodes numbered from `base` at positions lo..hi lie in base + lo .. base + hi. */
  lemma SliceBelow(ids: seq<nat>, base: nat, lo: nat, hi: nat)
    requires lo <= hi <= |ids| && forall p | 0 <= p < |ids| :: ids[p] == base + p
    ensures Distinct(ids[lo..hi])
    ensures forall x | x in ids[lo..hi] :: base + lo <= x < base + hi
  {
    forall x | x in ids[lo..hi] ensures base + lo <= x < base + hi {
      var k :| 0 <= k < hi - lo && ids[lo..hi][k] == x;
      assert ids[lo..hi][k] == ids[lo + k];
    }
  }

  /**
    The pairs the constructor connects, over nodes numbered from `base`,
    each join an input to an output.
   */
  lemma GridBounds(ids: seq<nat>, base: nat, input: nat, output: nat)
    requires |ids| == input + output && forall p | 0 <= p < |ids| :: ids[p] == base + p
    ensures Distinct(ids[..input]) && Distinct(ids[input..])
    ensures var ps := Grid(ids[..input], ids[input..]);
      forall t | 0 <= t < |ps| :: base <= ps[t].0 < base + input <= ps[t].1 < base + input + output
  {
    var (xs, ys) := (ids[..input], ids[input..]);
    assert xs == ids[0..input] && ys == ids[input..|ids|];
    SliceBelow(ids, base, 0, input);
    SliceBelow(ids, base, input, |ids|);
    var ps := Grid(xs, ys);
    forall t | 0 <= t < |ps| ensures base <= ps[t].0 < base + input <= ps[t].1 < base + input + output {
      assert ps[t] in ps;
    }
  }

  /** Distinct pairs give links joining distinct pairs of positions. */
  lemma GridLinksDistinct(ps: seq<(nat, nat)>, base: nat, ws: nat -> real)
    requires Distinct(ps) && forall t | 0 <= t < |ps| :: base <= ps[t].0 && base <= ps[t].1
    ensures PairsDistinct(GridLinks(ps, base, ws))
  {
    var ls := GridLinks(ps, base, ws);
    forall s, t | 0 <= s < t < |ls| ensures ls[s].from != ls[t].from || ls[s].to != ls[t].to {
      assert ps[s] != ps[t];
      assert ls[s] == Link(ps[s].0 - base, ps[s].1 - base, ws(s), None);
      assert ls[t] == Link(ps[t].0 - base, ps[t].1 - base, ws(t), None);
    }
  }

  /** Over nodes numbered from `base`, the link read off each pair stands for that pair. */
  lemma GridLinksAt(ps: seq<(nat, nat)>, ids: seq<nat>, base: nat, ws: nat -> real)
    requires forall p | 0 <= p < |ids| :: ids[p] == base + p
    requires forall t | 0 <= t < |ps| :: base <= ps[t].0 < base + |ids| && base <= ps[t].1 < base + |ids|
    ensures PairsAt(ps, ids, GridLinks(ps, base, ws), 0)
  {
    var ls := GridLinks(ps, base, ws);
    forall t | 0 <= t < |ps|
      ensures ls[t].from < |ids| && ls[t].to < |ids| && ps[t] == (ids[ls[t].from], ids[ls[t].to])
    {
      assert ls[t] == Link(ps[t].0 - base, ps[t].1 - base, ws(t), None);
    }
  }

  /**
    The links read off the constructor's pairs fit the new nodes, join an
    input position to an output position, no two the same, and stand for
    those pairs.
   */
  lemma GridShape(ids: seq<nat>, base: nat, input: nat, output: nat, ws: nat -> real)
    requires |ids| == input + output && forall p | 0 <= p < |ids| :: ids[p] == base + p
    ensures var ps := Grid(ids[..input], ids[input..]);
      && (forall t | 0 <= t < |ps| :: base <= ps[t].0 && base <= ps[t].1)
      && var ls := GridLinks(ps, base, ws);
      && LinksBelow(ls, input + output) && PairsDistinct(ls) && PairsAt(ps, ids, ls, 0)
      && forall t | 0 <= t < |ls| :: ls[t].from < input <= ls[t].to
  {
    GridBounds(ids, base, input, output);
    var ps := Grid(ids[..input], ids[input..]);
    GridDistinct(ids[..input], ids[input..]);
    GridLinksDistinct(ps, base, ws);
    GridLinksAt(ps, ids, base, ws);
  }

  /** `ids` are fresh nodes of the types `kinds`, appended to h to give h1. */
  predicate FreshRun(h: Heap, kinds: seq<Kind>, h1: Heap, ids: seq<nat>) {
    && Wf(h1) && |h1.nodes| == |h.nodes| + |kinds| && |h1.conns| == |h.conns| + |kinds| && |ids| == |kinds|
    && forall p | 0 <= p < |ids| :: ids[p] == |h.nodes| + p && FreshAt(h1, ids[p], kinds[p], |h.conns| + p)
  }

  lemma FreshNodesRun(h: Heap, kinds: seq<Kind>, biases: nat -> real)
    requires Wf(h)
    ensures FreshRun(h, kinds, FreshNodes(h, kinds, biases).0, FreshNodes(h, kinds, biases).1)
  {
    var r := FreshNodes(h, kinds, biases);
    forall p | 0 <= p < |r.1| ensures r.1[p] == |h.nodes| + p && FreshAt(r.0, r.1[p], kinds[p], |h.conns| + p) {
      assert FreshAt(r.0, |h.nodes| + p, kinds[p], |h.conns| + p);
    }
  }

  /** Fresh nodes with no connections yet start the build loop. */
  lemma CreatedStart(h: Heap, kinds: seq<Kind>, h1: Heap, N: Network, plan: seq<Link>)
    requires FreshRun(h, kinds, h1, N.nodes)
    requires N.connections == [] && N.gates == [] && N.selfconns == []
    requires LinksBelow(plan, |N.nodes|) && PairsDistinct(plan)
    ensures Built(h1, N, plan, [])
  {
  }

  /** From position k on, the plan's links join the pairs `ps` of the nodes `ids`, in order. */
  predicate PairsAt(ps: seq<(nat, nat)>, ids: seq<nat>, plan: seq<Link>, k: nat) {
    k + |ps| <= |plan| && forall t | 0 <= t < |ps| :: PairOf(ps[t], ids, plan[k + t])
  }

  /** The link `l` joins the nodes of the pair `p`. */
  predicate PairOf(p: (nat, nat), ids: seq<nat>, l: Link) {
    l.from < |ids| && l.to < |ids| && p == (ids[l.from], ids[l.to])
  }

  lemma PairsAtTail(ps: seq<(nat, nat)>, ids: seq<nat>, plan: seq<Link>, k: nat)
    requires PairsAt(ps, ids, plan, k) && ps != []
    ensures PairsAt(ps[1..], ids, plan, k + 1)
  {
    var qs := ps[1..];
    forall t | 0 <= t < |qs| ensures PairOf(qs[t], ids, plan[k + 1 + t]) {
      assert qs[t] == ps[t + 1];
      assert k + 1 + t == k + (t + 1);
    }
  }

  /**
    Connecting the remaining pairs with the weights `ws(k)`, `ws(k + 1)`,
    ... is laying the remaining links of a plan without gaters whose
    positions hold those pairs.
   */
  lemma {:induction false} ConnectPairsIsBuild(h: Heap, N: Network, ps: seq<(nat, nat)>, ws: nat -> real,
                                               plan: seq<Link>, made: seq<nat>)
    requires Built(h, N, plan, made) && |made| + |ps| == |plan| && PairsAt(ps, N.nodes, plan, |made|)
    requires forall j | |made| <= j < |plan| ::
      plan[j].weight == ws(j) && plan[j].gater == None && plan[j].from != plan[j].to
    ensures PairsBelow(ps, |h.nodes|)
    ensures ConnectPairs(h, N, ps, ws, |made|) == Ok((Build(h, N, plan, made).0, Build(h, N, plan, made).1))
    decreases |ps|
  {
    forall t | 0 <= t < |ps| ensures ps[t].0 < |h.nodes| && ps[t].1 < |h.nodes| {
      assert ps[t] == (N.nodes[plan[|made| + t].from], N.nodes[plan[|made| + t].to]);
    }
    if ps != [] {
      PairStep(h, N, ps, ws, plan, made);
      var L := Lay(h, N, plan[|made|], 0.0).value;
      PairsAtTail(ps, N.nodes, plan, |made|);
      ConnectPairsIsBuild(L.0, L.1, ps[1..], ws, plan, made + [L.2]);
    }
  }

  /** Connecting the first pair is laying the next link of the plan. */
  lemma PairStep(h: Heap, N: Network, ps: seq<(nat, nat)>, ws: nat -> real, plan: seq<Link>, made: seq<nat>)
    requires Built(h, N, plan, made) && |made| < |plan| && PairsAt(ps, N.nodes, plan, |made|) && ps != []
    requires plan[|made|].weight == ws(|made|) && plan[|made|].gater == None && plan[|made|].from != plan[|made|].to
    ensures ps[0].0 < |h.nodes| && ps[0].1 < |h.nodes|
    ensures Lay(h, N, plan[|made|], 0.0).Ok?
    ensures var L := Lay(h, N, plan[|made|], 0.0).value;
      && Networks.Connect(h, N, ps[0].0, ps[0].1, Some(ws(|made|)), 0.0) == Ok((L.0, L.1, [L.2]))
      && Built(L.0, L.1, plan, made + [L.2]) && L.1.nodes == N.nodes
  {
    var l := plan[|made|];
    var (a, b) := (N.nodes[l.from], N.nodes[l.to]);
    assert ps[0] == (a, b);
    NotYetProjecting(h, N, plan, made);
    JoinWeighted(h, N, a, b, ws(|made|));
    var L := Lay(h, N, l, 0.0).value;
    BuildStep(h, N, plan, made, L.0, L.1, L.2);
  }

  /**
    The network `new Network(input, output)` builds on top of `h`: its
    `input + output` nodes are new, the inputs first, none with a cached
    index; `connections` holds `input * output` connections in row order,
    the one at Flat(a, b, output) = a * output + b from input a to output
    b with weight `ws` of that position and no gater; `gates` and
    `selfconns` are empty and dropout is 0.
   */
  predicate Created(h: Heap, input: nat, output: nat, ws: nat -> real, h2: Heap, N: Network) {
    && Wf(h2) && Indexed(h2, N)
    && N.input == input && N.output == output && N.dropout == 0.0
    && N.gates == [] && N.selfconns == []
    && |N.nodes| == input + output
    && (forall p | 0 <= p < |N.nodes| ::
          && N.nodes[p] == |h.nodes| + p
          && h2.nodes[N.nodes[p]].kind == (if p < input then Input else Output)
          && h2.nodes[N.nodes[p]].index == None)
    && |N.connections| == Flat(input, 0, output)
    && GridLaid(h2, N, input, output, ws)
  }

  /** The connection at Flat(a, b, output) carries input a to output b with that position's weight and no gater. */
  predicate GridLaid(h2: Heap, N: Network, input: nat, output: nat, ws: nat -> real)
    requires Wf(h2) && Indexed(h2, N)
  {
    forall a, b | 0 <= a < input && 0 <= b < output ::
      && Flat(a, b, output) < |N.connections|
      && a < |N.nodes| && input + b < |N.nodes|
      && h2.conns[N.connections[Flat(a, b, output)]].from == N.nodes[a]
      && h2.conns[N.connections[Flat(a, b, output)]].to == N.nodes[input + b]
      && h2.conns[N.connections[Flat(a, b, output)]].weight == ws(Flat(a, b, output))
      && h2.conns[N.connections[Flat(a, b, output)]].gater == None
  }

  /** The plan joins input a to output b at position Flat(a, b, output), with that position's weight. */
  predicate GridPlan(plan: seq<Link>, input: nat, output: nat, ws: nat -> real) {
    forall a, b | 0 <= a < input && 0 <= b < output ::
      && Flat(a, b, output) < |plan|
      && plan[Flat(a, b, output)] == Link(a, input + b, ws(Flat(a, b, output)), None)
  }

  /** The link at grid position Flat(a, b, output) joins input a to output b. */
  lemma GridLinksFlat(ids: seq<nat>, base: nat, input: nat, output: nat, ws: nat -> real)
    requires |ids| == input + output && forall p | 0 <= p < |ids| :: ids[p] == base + p
    requires forall t | 0 <= t < |Grid(ids[..input], ids[input..])| ::
      base <= Grid(ids[..input], ids[input..])[t].0 && base <= Grid(ids[..input], ids[input..])[t].1
    ensures |GridLinks(Grid(ids[..input], ids[input..]), base, ws)| == Flat(input, 0, output)
    ensures GridPlan(GridLinks(Grid(ids[..input], ids[input..]), base, ws), input, output, ws)
  {
    var (xs, ys) := (ids[..input], ids[input..]);
    assert |xs| == input && |ys| == output;
    var ps := Grid(xs, ys);
    assert |ps| == Flat(input, 0, output);
    var ls := GridLinks(ps, base, ws);
    forall a, b | 0 <= a < input && 0 <= b < output
      ensures && Flat(a, b, output) < |ls|
              && ls[Flat(a, b, output)] == Link(a, input + b, ws(Flat(a, b, output)), None)
    {
      var t := Flat(a, b, output);
      assert ps[t] == (xs[a], ys[b]);
      assert xs[a] == base + a && ys[b] == base + input + b;
      assert ls[t] == Link(ps[t].0 - base, ps[t].1 - base, ws(t), None);
    }
  }

  /**
    The constructor's starting point: the fresh nodes, the network holding
    them, and the links it lays.
   */
  function Planned(h: Heap, input: nat, output: nat, ws: nat -> real, biases: nat -> real)
    : (r: (Heap, Network, seq<Link>))
    requires Wf(h)
    ensures Built(r.0, r.1, r.2, []) && |r.2| == Flat(input, 0, output)
    ensures r.1 == Network(input, output, r.1.nodes, [], [], [], 0.0)
    ensures GridPlan(r.2, input, output, ws)
    ensures forall t | 0 <= t < |r.2| :: r.2[t].weight == ws(t) && r.2[t].gater == None && r.2[t].from != r.2[t].to
  {
    var f := FreshNodes(h, Layout(input, output), biases);
    FreshNodesRun(h, Layout(input, output), biases);
    FreshNodesUnindexed(h, Layout(input, output), biases);
    var N0 := Network(input, output, f.1, [], [], [], 0.0);
    GridShape(f.1, |h.nodes|, input, output, ws);
    GridLinksFlat(f.1, |h.nodes|, input, output, ws);
    var plan := GridLinks(Grid(f.1[..input], f.1[input..]), |h.nodes|, ws);
    CreatedStart(h, Layout(input, output), f.0, N0, plan);
    (f.0, N0, plan)
  }

  /** The planned nodes are fresh and carry no cached index. */
  lemma PlannedFresh(h: Heap, input: nat, output: nat, ws: nat -> real, biases: nat -> real)
    requires Wf(h)
    ensures var r := Planned(h, input, output, ws, biases);
      && FreshRun(h, Layout(input, output), r.0, r.1.nodes)
      && forall p | 0 <= p < |r.1.nodes| :: r.0.nodes[r.1.nodes[p]].index == None
  {
    var f := FreshNodes(h, Layout(input, output), biases);
    FreshNodesRun(h, Layout(input, output), biases);
    FreshNodesUnindexed(h, Layout(input, output), biases);
    var r := Planned(h, input, output, ws, biases);
    assert r.0 == f.0 && r.1.nodes == f.1;
  }

  /** Laying the planned links is what the constructor's connect loop does. */
  lemma NewIsBuild(h: Heap, input: nat, output: nat, ws: nat -> real, biases: nat -> real)
    requires Wf(h)
    ensures var P := Planned(h, input, output, ws, biases);
      && Networks.New(h, Some(input), Some(output), ws, biases)
           == Ok((Build(P.0, P.1, P.2, []).0, Build(P.0, P.1, P.2, []).1))
      && Build(P.0, P.1, P.2, []).1.gates == []
  {
    var P := Planned(h, input, output, ws, biases);
    var f := FreshNodes(h, Layout(input, output), biases);
    var ids := f.1;
    var ps := Grid(ids[..input], ids[input..]);
    GridShape(ids, |h.nodes|, input, output, ws);
    assert P == (f.0, Network(input, output, ids, [], [], [], 0.0), GridLinks(ps, |h.nodes|, ws));
    ConnectPairsIsBuild(P.0, P.1, ps, ws, P.2, []);
  }

  /** Once every planned link is laid, the connection at Flat(a, b, output) carries input a to output b. */
  lemma BuiltGrid(h2: Heap, N: Network, plan: seq<Link>, made: seq<nat>, input: nat, output: nat, ws: nat -> real)
    requires Built(h2, N, plan, made) && |made| == |plan| && N.connections == made
    requires GridPlan(plan, input, output, ws)
    ensures GridLaid(h2, N, input, output, ws)
  {
    forall a, b | 0 <= a < input && 0 <= b < output
      ensures && Flat(a, b, output) < |N.connections|
              && a < |N.nodes| && input + b < |N.nodes|
              && h2.conns[N.connections[Flat(a, b, output)]].from == N.nodes[a]
              && h2.conns[N.connections[Flat(a, b, output)]].to == N.nodes[input + b]
              && h2.conns[N.connections[Flat(a, b, output)]].weight == ws(Flat(a, b, output))
              && h2.conns[N.connections[Flat(a, b, output)]].gater == None
    {
      var t := Flat(a, b, output);
      assert Carries(h2, N.nodes, plan[t], made[t]);
    }
  }

  /** Laying every planned link, none of them a self-link, files each connection in order. */
  lemma BuiltPlain(h2: Heap, N: Network, plan: seq<Link>, made: seq<nat>, input: nat, output: nat, ws: nat -> real)
    requires Built(h2, N, plan, made) && |made| == |plan|
    requires forall t | 0 <= t < |plan| :: plan[t].from != plan[t].to
    requires GridPlan(plan, input, output, ws)
    ensures Wf(h2) && Indexed(h2, N) && N.connections == made && N.selfconns == []
    ensures GridLaid(h2, N, input, output, ws)
  {
    PlainAll(plan, made);
    BuiltGrid(h2, N, plan, made, input, output, ws);
  }

  /** Laying every planned link on the fresh nodes gives what Created describes. */
  lemma LaidCreated(h: Heap, input: nat, output: nat, ws: nat -> real, h1: Heap, h2: Heap, N: Network)
    requires FreshRun(h, Layout(input, output), h1, N.nodes) && SameValues(h1, h2)
    requires forall p | 0 <= p < |N.nodes| :: h1.nodes[N.nodes[p]].index == None
    requires Wf(h2) && Indexed(h2, N) && N.gates == [] && N.selfconns == []
    requires N.input == input && N.output == output && N.dropout == 0.0
    requires |N.connections| == Flat(input, 0, output)
    requires GridLaid(h2, N, input, output, ws)
    ensures Created(h, input, output, ws, h2, N)
  {
    LaidKinds(h, input, output, h1, N.nodes, h2);
  }

  /** With both sizes given the constructor succeeds, and builds what Created describes. */
  lemma NewShape(h: Heap, input: nat, output: nat, ws: nat -> real, biases: nat -> real)
    requires Wf(h)
    ensures var r := Networks.New(h, Some(input), Some(output), ws, biases);
      r.Ok? && Created(h, input, output, ws, r.value.0, r.value.1)
  {
    NewIsBuild(h, input, output, ws, biases);
    var P := Planned(h, input, output, ws, biases);
    var B := Build(P.0, P.1, P.2, []);
    PlannedFresh(h, input, output, ws, biases);
    BuiltPlain(B.0, B.1, P.2, B.2, input, output, ws);
    LaidCreated(h, input, output, ws, P.0, B.0, B.1);
  }

  /** Laying links keeps the types of the fresh nodes and leaves them unindexed. */
  lemma LaidKinds(h: Heap, input: nat, output: nat, h1: Heap, ids: seq<nat>, h2: Heap)
    requires FreshRun(h, Layout(input, output), h1, ids) && SameValues(h1, h2)
    requires forall p | 0 <= p < |ids| :: h1.nodes[ids[p]].index == None
    ensures forall p | 0 <= p < |ids| ::
      && ids[p] < |h2.nodes|
      && h2.nodes[ids[p]].kind == (if p < input then Input else Output)
      && h2.nodes[ids[p]].index == None
  {
    forall p | 0 <= p < |ids|
      ensures && ids[p] < |h2.nodes|
              && h2.nodes[ids[p]].kind == (if p < input then Input else Output)
              && h2.nodes[ids[p]].index == None
    {
      assert h1.nodes[ids[p]].kind == Layout(input, output)[p];
    }
  }
}
