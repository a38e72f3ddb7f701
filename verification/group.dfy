/**
  Groups of nodes (`architecture/group.ts`): a group is a list of arena
  nodes together with the connections it has recorded as incoming,
  outgoing and one-to-one. Connecting, gating and disconnecting a group
  run the node primitives pair by pair and keep those lists.
 */
module Groups {
  import opened Base
  import opened Methods
  import opened Connections
  import opened Nodes
  import opened Links
  import opened Networks
  import opened NetworkLinks
  import Constructor

  /** A group: its nodes, and the connections it recorded as `in`, `out` and `self`. */
  datatype Group = Group(nodes: seq<nat>, ins: seq<nat>, outs: seq<nat>, selfs: seq<nat>)

  predicate GroupWf(h: Heap, G: Group) {
    && IdsBelow(G.nodes, |h.nodes|)
    && IdsBelow(G.ins, |h.conns|)
    && IdsBelow(G.outs, |h.conns|)
    && IdsBelow(G.selfs, |h.conns|)
  }

  // ------------------------------------------------------------ construction

  /** Appending fresh nodes keeps the links: each fresh node is linked to nothing. */
  lemma {:induction false} FreshNodesLinked(h: Heap, kinds: seq<Kind>, draw: nat -> real)
    requires Linked(h)
    ensures Linked(FreshNodes(h, kinds, draw).0)
    decreases |kinds|
  {
    if kinds != [] {
      var last := |kinds| - 1;
      FreshNodesLinked(h, kinds[..last], draw);
      var (h1, ids) := FreshNodes(h, kinds[..last], draw);
      NewNodeLinked(h1, Some(kinds[last]), draw(|h1.nodes|));
    }
  }

  /** A fresh node projects to no node, itself included. */
  lemma FreshProjectsNowhere(h: Heap, n: nat, kind: Kind, c: nat, b: nat)
    requires Wf(h) && FreshAt(h, n, kind, c) && b < |h.nodes|
    ensures !IsProjectingTo(h, n, b)
  {
  }

  /** Appending to the arena keeps a fresh node fresh. */
  lemma FreshAtKept(h: Heap, h2: Heap, n: nat, kind: Kind, c: nat)
    requires FreshAt(h, n, kind, c)
    requires |h.nodes| <= |h2.nodes| && |h.conns| <= |h2.conns|
    requires forall k | 0 <= k < |h.nodes| :: h2.nodes[k] == h.nodes[k]
    requires forall k | 0 <= k < |h.conns| :: h2.conns[k] == h.conns[k]
    ensures FreshAt(h2, n, kind, c)
  {
  }

  /**
    `new Group(size)`: `size` fresh hidden nodes appended to the arena, and
    no recorded connections. Nothing the arena held changes.
   */
  function NewGroup(h: Heap, size: nat, draw: nat -> real): (r: (Heap, Group))
    requires Wf(h)
    ensures Wf(r.0) && GroupWf(r.0, r.1)
    ensures |r.0.nodes| == |h.nodes| + size && |r.0.conns| == |h.conns| + size
    ensures |r.1.nodes| == size && Distinct(r.1.nodes)
    ensures AllFresh(r.0, r.1.nodes, |h.nodes|, |h.conns|)
    ensures r.1.ins == [] && r.1.outs == [] && r.1.selfs == []
    ensures forall k | 0 <= k < |h.nodes| :: r.0.nodes[k] == h.nodes[k]
    ensures forall k | 0 <= k < |h.conns| :: r.0.conns[k] == h.conns[k]
  {
    var kinds := HiddenKinds(size);
    var made := FreshNodes(h, kinds, draw);
    FreshHidden(h, kinds, draw);
    (made.0, Group(made.1, [], [], []))
  }

  /** The kinds of a new group's nodes. */
  function HiddenKinds(size: nat): (r: seq<Kind>)
    ensures |r| == size && forall i | 0 <= i < size :: r[i] == Hidden
  {
    seq(size, _ => Hidden)
  }

  /** `ids` are fresh hidden nodes numbered on from `n`, with self-connections numbered on from `c`. */
  predicate AllFresh(h: Heap, ids: seq<nat>, n: nat, c: nat) {
    forall i | 0 <= i < |ids| :: ids[i] == n + i && FreshAt(h, ids[i], Hidden, c + i)
  }

  lemma FreshHidden(h: Heap, kinds: seq<Kind>, draw: nat -> real)
    requires Wf(h) && forall i | 0 <= i < |kinds| :: kinds[i] == Hidden
    ensures var r := FreshNodes(h, kinds, draw); AllFresh(r.0, r.1, |h.nodes|, |h.conns|)
  {
    var r := FreshNodes(h, kinds, draw);
    forall i | 0 <= i < |kinds| ensures r.1[i] == |h.nodes| + i && FreshAt(r.0, r.1[i], Hidden, |h.conns| + i) {
      assert kinds[i] == Hidden && FreshAt(r.0, |h.nodes| + i, kinds[i], |h.conns| + i);
    }
  }

  /** No node of a new group projects anywhere. */
  lemma NewGroupIdle(h: Heap, size: nat, draw: nat -> real)
    requires Wf(h)
    ensures var r := NewGroup(h, size, draw);
      forall i, b | 0 <= i < size && 0 <= b < |r.0.nodes| :: !IsProjectingTo(r.0, r.1.nodes[i], b)
  {
    var r := NewGroup(h, size, draw);
    forall i, b | 0 <= i < size && 0 <= b < |r.0.nodes| ensures !IsProjectingTo(r.0, r.1.nodes[i], b) {
      FreshProjectsNowhere(r.0, r.1.nodes[i], Hidden, |h.conns| + i, b);
    }
  }

  /** On a linked arena a new group keeps the links. */
  lemma NewGroupLinked(h: Heap, size: nat, draw: nat -> real)
    requires Linked(h)
    ensures Linked(NewGroup(h, size, draw).0)
  {
    FreshNodesLinked(h, HiddenKinds(size), draw);
  }

  // --------------------------------------------------------------------- set

  /** The argument of `set`: each property is changed only when given. */
  datatype Values = Values(bias: Option<real>, squash: Option<Squash>, kind: Option<Kind>)

  /** One node after `set`: a given bias, squash or type replaces the node's own. */
  function Settled(x: Node, v: Values): (y: Node)
    ensures y.bias == (if v.bias.Some? then v.bias.value else x.bias)
    ensures y.squash == (if v.squash.Some? then v.squash.value else x.squash)
    ensures y.kind == (if v.kind.Some? then v.kind.value else x.kind)
    ensures y == x.(bias := y.bias, squash := y.squash, kind := y.kind)
  {
    x.(bias := v.bias.GetOr(x.bias), squash := v.squash.GetOr(x.squash), kind := v.kind.GetOr(x.kind))
  }

  /**
    `group.set(values)` on the nodes `ids`: every listed node is settled,
    every other node and every connection is left alone; a node listed
    twice is settled once.
   */
  function Set(h: Heap, ids: seq<nat>, v: Values): (r: Heap)
    requires Wf(h) && IdsBelow(ids, |h.nodes|)
    ensures Wf(r) && |r.nodes| == |h.nodes| && r.conns == h.conns
    ensures forall n | 0 <= n < |h.nodes| && n in ids :: r.nodes[n] == Settled(h.nodes[n], v)
    ensures forall n | 0 <= n < |h.nodes| && n !in ids :: r.nodes[n] == h.nodes[n]
    decreases |ids|
  {
    if ids == [] then h
    else
      var last := |ids| - 1;
      var h1 := Set(h, ids[..last], v);
      var n := ids[last];
      assert NodeWf(h1.nodes[n], |h1.conns|);
      assert forall m | m in ids :: m in ids[..last] || m == n;
      PutNode(h1, n, Settled(h1.nodes[n], v))
  }

  /** Setting the same values twice is setting them once. */
  lemma SetIdempotent(h: Heap, ids: seq<nat>, v: Values)
    requires Wf(h) && IdsBelow(ids, |h.nodes|)
    ensures Set(Set(h, ids, v), ids, v) == Set(h, ids, v)
  {
    var h1 := Set(h, ids, v);
    var h2 := Set(h1, ids, v);
    forall n | 0 <= n < |h.nodes| ensures h2.nodes[n] == h1.nodes[n] {
    }
  }

  // ----------------------------------------------------------------- connect

  /** What a group connects to: itself, another group, or one node. */
  datatype Target = Itself | Other(group: Group) | Single(node: nat)

  /** The nodes on the target side. */
  function TargetNodes(G: Group, T: Target): seq<nat> {
    match T
    case Itself => G.nodes
    case Other(g) => g.nodes
    case Single(n) => [n]
  }

  /** Without a method, a group is wired ONE_TO_ONE to itself and ALL_TO_ALL to another group. */
  function WiringFor(T: Target, how: Option<Wiring>): (m: Wiring)
    ensures how.Some? ==> m == how.value
    ensures how.None? ==> (m == OneToOne <==> T.Itself?) && (m == AllToAll <==> !T.Itself?)
  {
    match how
    case Some(m) => m
    case None => if T.Itself? then OneToOne else AllToAll
  }

  /** The pairs (xs[i], y). */
  function Column(xs: seq<nat>, y: nat): (ps: seq<(nat, nat)>)
    ensures |ps| == |xs|
    ensures forall i | 0 <= i < |xs| :: ps[i] == (xs[i], y)
  {
    seq(|xs|, i requires 0 <= i < |xs| => (xs[i], y))
  }

  /** The pairs (xs[i], ys[i]). */
  function Zip(xs: seq<nat>, ys: seq<nat>): (ps: seq<(nat, nat)>)
    requires |xs| == |ys|
    ensures |ps| == |xs|
    ensures forall i | 0 <= i < |xs| :: ps[i] == (xs[i], ys[i])
  {
    seq(|xs|, i requires 0 <= i < |xs| => (xs[i], ys[i]))
  }

  /** The pairs whose two ends differ, in order: the ALL_TO_ELSE filter. */
  function Unequal(ps: seq<(nat, nat)>): (r: seq<(nat, nat)>)
    ensures |r| <= |ps|
    ensures forall p :: p in r <==> p in ps && p.0 != p.1
    decreases |ps|
  {
    if ps == [] then []
    else
      var rest := Unequal(ps[1..]);
      assert forall p :: p in ps <==> p == ps[0] || p in ps[1..];
      if ps[0].0 == ps[0].1 then rest else [ps[0]] + rest
  }

  lemma {:induction false} UnequalDistinct(ps: seq<(nat, nat)>)
    requires Distinct(ps)
    ensures Distinct(Unequal(ps))
    decreases |ps|
  {
    if ps != [] {
      DistinctTail(ps);
      UnequalDistinct(ps[1..]);
    }
  }

  /**
    The pairs `group.connect` hands to `node.connect`, in its loop order.
    ONE_TO_ONE between groups of different sizes throws before any
    connection is made.
   */
  function Pairs(G: Group, T: Target, m: Wiring): (r: Result<seq<(nat, nat)>>)
    ensures r.Err? <==> !T.Single? && m == OneToOne && |G.nodes| != |TargetNodes(G, T)|
    ensures r.Err? ==> r.error == GroupSizes
  {
    if T.Single? then Ok(Column(G.nodes, T.node))
    else
      var ys := TargetNodes(G, T);
      match m
      case AllToAll => Ok(Grid(G.nodes, ys))
      case AllToElse => Ok(Unequal(Grid(G.nodes, ys)))
      case OneToOne => if |G.nodes| != |ys| then Err(GroupSizes) else Ok(Zip(G.nodes, ys))
  }

  /** Every pair joins a node of the group to a node of the target. */
  lemma PairsFromTo(G: Group, T: Target, m: Wiring)
    requires Pairs(G, T, m).Ok?
    ensures forall p | p in Pairs(G, T, m).value :: p.0 in G.nodes && p.1 in TargetNodes(G, T)
  {
    var ps := Pairs(G, T, m).value;
    forall p | p in ps ensures p.0 in G.nodes && p.1 in TargetNodes(G, T) {
      var t :| 0 <= t < |ps| && ps[t] == p;
      if !T.Single? && m == AllToElse {
        assert p in Grid(G.nodes, TargetNodes(G, T));
      }
    }
  }

  lemma PairsInRange(G: Group, T: Target, m: Wiring, n: nat)
    requires Pairs(G, T, m).Ok? && IdsBelow(G.nodes, n) && IdsBelow(TargetNodes(G, T), n)
    ensures PairsBelow(Pairs(G, T, m).value, n)
  {
    PairsFromTo(G, T, m);
    var ps := Pairs(G, T, m).value;
    forall t | 0 <= t < |ps| ensures ps[t].0 < n && ps[t].1 < n {
      assert ps[t] in ps;
    }
  }

  /** Distinct nodes on both sides give distinct pairs. */
  lemma PairsDistinct(G: Group, T: Target, m: Wiring)
    requires Pairs(G, T, m).Ok? && Distinct(G.nodes) && Distinct(TargetNodes(G, T))
    ensures Distinct(Pairs(G, T, m).value)
  {
    var ps := Pairs(G, T, m).value;
    if !T.Single? && m != OneToOne {
      Constructor.GridDistinct(G.nodes, TargetNodes(G, T));
      if m == AllToElse {
        UnequalDistinct(Grid(G.nodes, TargetNodes(G, T)));
      }
    }
  }

  lemma PairsTail(ps: seq<(nat, nat)>, n: nat)
    requires ps != [] && PairsBelow(ps, n)
    ensures PairsBelow(ps[1..], n)
  {
    forall t | 0 <= t < |ps| - 1 ensures ps[1..][t].0 < n && ps[1..][t].1 < n {
      assert ps[1..][t] == ps[t + 1];
    }
  }

  lemma DistinctTail<T>(s: seq<T>)
    requires s != [] && Distinct(s)
    ensures Distinct(s[1..]) && s[0] !in s[1..]
  {
    forall i, j | 0 <= i < j < |s| - 1 ensures s[1..][i] != s[1..][j] {
      assert s[i + 1] != s[j + 1];
    }
    forall i | 0 <= i < |s| - 1 ensures s[1..][i] != s[0] {
      assert s[i + 1] != s[0];
    }
  }

  /** `h2` extends `h`: same nodes, more connections, no endpoint and no self-connection moved. */
  predicate KeepsEnds(h: Heap, h2: Heap) {
    && |h2.nodes| == |h.nodes| && |h.conns| <= |h2.conns|
    && (forall c | 0 <= c < |h.conns| :: h2.conns[c].from == h.conns[c].from && h2.conns[c].to == h.conns[c].to)
    && (forall n | 0 <= n < |h.nodes| :: h2.nodes[n].selfConn == h.nodes[n].selfConn)
  }

  /**
    Connection `c` of `h2` is the one `node.connect` returned for pair `p`
    on `h`: the first node's self-connection when both ends agree, and
    otherwise a connection new since `h` from the first end to the second.
   */
  predicate Joined(h: Heap, h2: Heap, p: (nat, nat), c: nat)
    requires p.0 < |h.nodes| && c < |h2.conns|
  {
    if p.0 == p.1 then c == h.nodes[p.0].selfConn
    else |h.conns| <= c && h2.conns[c].from == p.0 && h2.conns[c].to == p.1
  }

  /** The `t`-th connection returned is the one made for the `t`-th pair. */
  predicate Joins(h: Heap, h2: Heap, ps: seq<(nat, nat)>, made: seq<nat>)
    requires PairsBelow(ps, |h.nodes|)
  {
    && KeepsEnds(h, h2)
    && |made| == |ps|
    && forall t | 0 <= t < |ps| :: made[t] < |h2.conns| && Joined(h, h2, ps[t], made[t])
  }

  lemma JoinsStep(h: Heap, h1: Heap, h2: Heap, ps: seq<(nat, nat)>, c: nat, made: seq<nat>)
    requires ps != [] && PairsBelow(ps, |h.nodes|) && KeepsEnds(h, h1) && c < |h1.conns|
    requires Joined(h, h1, ps[0], c)
    requires PairsBelow(ps[1..], |h1.nodes|) && Joins(h1, h2, ps[1..], made)
    ensures Joins(h, h2, ps, [c] + made)
  {
    forall t | 0 <= t < |ps| ensures ([c] + made)[t] < |h2.conns| && Joined(h, h2, ps[t], ([c] + made)[t]) {
      if t > 0 {
        assert ps[1..][t - 1] == ps[t];
        assert Joined(h1, h2, ps[1..][t - 1], made[t - 1]);
      }
    }
  }

  /**
    `node.connect` for each pair in turn, the `t`-th one drawing
    `draws(k + t)` when no weight is given; the returned connections in
    order. The first pair whose source already projects to its target
    throws.
   */
  function LinkPairs(h: Heap, ps: seq<(nat, nat)>, weight: Option<real>, draws: nat -> real, k: nat)
    : (r: Result<(Heap, seq<nat>)>)
    requires Wf(h) && PairsBelow(ps, |h.nodes|)
    ensures r.Ok? ==> Wf(r.value.0) && Joins(h, r.value.0, ps, r.value.1)
    ensures r.Err? ==> r.error == AlreadyProjecting
    decreases |ps|
  {
    if ps == [] then Ok((h, []))
    else
      var a, b := ps[0].0, ps[0].1;
      var s :- Nodes.Connect(h, a, b, weight, draws(k));
      var h1 := s.0;
      assert KeepsEnds(h, h1) && s.1[0] < |h1.conns| && Joined(h, h1, ps[0], s.1[0]);
      PairsTail(ps, |h1.nodes|);
      var rest :- LinkPairs(h1, ps[1..], weight, draws, k + 1);
      JoinsStep(h, h1, rest.0, ps, s.1[0], rest.1);
      Ok((rest.0, [s.1[0]] + rest.1))
  }

  /** `node.connect` loses no projection: edges only grow, and a self-connection only comes alive. */
  lemma NodeConnectKeeps(h: Heap, a: nat, b: nat, weight: Option<real>, draw: real)
    requires Linked(h) && a < |h.nodes| && b < |h.nodes|
    requires Nodes.Connect(h, a, b, weight, draw).Ok?
    ensures KeepsProjections(h, Nodes.Connect(h, a, b, weight, draw).value.0)
  {
    var h2 := Nodes.Connect(h, a, b, weight, draw).value.0;
    forall m | 0 <= m < |h.nodes| && SelfWeight(h, m) != 0.0 ensures SelfWeight(h2, m) != 0.0 {
      assert NodeLinked(h, m) && NodeLinked(h, a);
      assert NodeWf(h.nodes[m], |h.conns|);
    }
    assert WiringKept(h, h2, None);
    WiringKeepsProjections(h, h2, None);
  }

  /** The only projection between distinct nodes `node.connect` can add is its own. */
  lemma ConnectAddsOnly(h: Heap, a: nat, b: nat, weight: Option<real>, draw: real, x: nat, y: nat)
    requires Wf(h) && a < |h.nodes| && b < |h.nodes| && x < |h.nodes| && y < |h.nodes| && x != y
    requires Nodes.Connect(h, a, b, weight, draw).Ok?
    requires IsProjectingTo(Nodes.Connect(h, a, b, weight, draw).value.0, x, y)
    ensures IsProjectingTo(h, x, y) || (x == a && y == b)
  {
    var h2 := Nodes.Connect(h, a, b, weight, draw).value.0;
    var c :| c in h2.nodes[x].outConns && h2.conns[c].to == y;
    assert NodeWf(h.nodes[x], |h.conns|);
    if a == b {
      assert c in h.nodes[x].outConns && h.conns[c].to == y;
    } else if c == |h.conns| {
      assert x == a;
    } else {
      assert c in h.nodes[x].outConns && h.conns[c].to == y;
    }
  }

  /** Distinct pairs whose sources do not yet project to their targets all connect. */
  lemma {:induction false} LinkPairsOk(h: Heap, ps: seq<(nat, nat)>, weight: Option<real>, draws: nat -> real, k: nat)
    requires Wf(h) && PairsBelow(ps, |h.nodes|) && Distinct(ps)
    requires forall t | 0 <= t < |ps| && ps[t].0 != ps[t].1 :: !IsProjectingTo(h, ps[t].0, ps[t].1)
    ensures LinkPairs(h, ps, weight, draws, k).Ok?
    decreases |ps|
  {
    if ps != [] {
      var a, b := ps[0].0, ps[0].1;
      var h1 := Nodes.Connect(h, a, b, weight, draws(k)).value.0;
      PairsTail(ps, |h1.nodes|);
      DistinctTail(ps);
      forall t | 0 <= t < |ps| - 1 && ps[1..][t].0 != ps[1..][t].1
        ensures !IsProjectingTo(h1, ps[1..][t].0, ps[1..][t].1)
      {
        assert ps[1..][t] == ps[t + 1] && ps[t + 1] != ps[0];
        if IsProjectingTo(h1, ps[1..][t].0, ps[1..][t].1) {
          ConnectAddsOnly(h, a, b, weight, draws(k), ps[t + 1].0, ps[t + 1].1);
        }
      }
      LinkPairsOk(h1, ps[1..], weight, draws, k + 1);
    }
  }

  /** On a linked arena, `node.connect` keeps the links and every projection, and adds its own. */
  lemma NodeConnectStep(h: Heap, a: nat, b: nat, weight: Option<real>, draw: real)
    requires Linked(h) && a < |h.nodes| && b < |h.nodes|
    requires Nodes.Connect(h, a, b, weight, draw).Ok?
    ensures var h1 := Nodes.Connect(h, a, b, weight, draw).value.0;
      Linked(h1) && KeepsProjections(h, h1) && IsProjectingTo(h1, a, b)
  {
    if a == b {
      ConnectSelfLinked(h, a, weight, draw);
    } else {
      ConnectLinked(h, a, b, weight, draw);
    }
    NodeConnectKeeps(h, a, b, weight, draw);
  }

  /** Every pair's source projects to its target. */
  predicate PairsWired(h: Heap, ps: seq<(nat, nat)>)
    requires Wf(h) && PairsBelow(ps, |h.nodes|)
  {
    forall t | 0 <= t < |ps| :: IsProjectingTo(h, ps[t].0, ps[t].1)
  }

  lemma PairsWiredCons(h: Heap, ps: seq<(nat, nat)>)
    requires Wf(h) && ps != [] && PairsBelow(ps, |h.nodes|)
    requires IsProjectingTo(h, ps[0].0, ps[0].1) && PairsWired(h, ps[1..])
    ensures PairsWired(h, ps)
  {
    forall t | 0 < t < |ps| ensures IsProjectingTo(h, ps[t].0, ps[t].1) {
      assert ps[1..][t - 1] == ps[t];
    }
  }

  /** On a linked arena, linking keeps the links and every projection, and every pair ends up projecting. */
  lemma {:induction false} LinkPairsProjects(h: Heap, ps: seq<(nat, nat)>, weight: Option<real>, draws: nat -> real, k: nat)
    requires Linked(h) && PairsBelow(ps, |h.nodes|)
    requires LinkPairs(h, ps, weight, draws, k).Ok?
    ensures var h2 := LinkPairs(h, ps, weight, draws, k).value.0;
      Linked(h2) && KeepsProjections(h, h2) && PairsWired(h2, ps)
    decreases |ps|
  {
    if ps != [] {
      var a, b := ps[0].0, ps[0].1;
      var h1 := Nodes.Connect(h, a, b, weight, draws(k)).value.0;
      NodeConnectStep(h, a, b, weight, draws(k));
      PairsTail(ps, |h1.nodes|);
      LinkPairsProjects(h1, ps[1..], weight, draws, k + 1);
      var h2 := LinkPairs(h1, ps[1..], weight, draws, k + 1).value.0;
      assert LinkPairs(h, ps, weight, draws, k).value.0 == h2;
      PairsWiredCons(h2, ps);
    }
  }

  /**
    `group.connect(target, method, weight)`: the pairs of the wiring,
    connected in order. The connections made are returned and recorded:
    as the group's `self` list under ONE_TO_ONE, otherwise in its `out`
    list and, for a group target, in that group's `in` list.
   */
  function ConnectTo(h: Heap, G: Group, T: Target, how: Option<Wiring>, weight: Option<real>, draws: nat -> real)
    : (r: Result<(Heap, Group, Target, seq<nat>)>)
    requires Wf(h) && IdsBelow(G.nodes, |h.nodes|) && IdsBelow(TargetNodes(G, T), |h.nodes|)
    ensures r.Err? ==> r.error == GroupSizes || r.error == AlreadyProjecting
    ensures (r.Err? && r.error == GroupSizes) <==> Pairs(G, T, WiringFor(T, how)).Err?
    ensures r.Ok? ==>
      && Wf(r.value.0)
      && Pairs(G, T, WiringFor(T, how)).Ok?
      && PairsBelow(Pairs(G, T, WiringFor(T, how)).value, |h.nodes|)
      && Joins(h, r.value.0, Pairs(G, T, WiringFor(T, how)).value, r.value.3)
    ensures r.Ok? ==>
      var m, made, G2 := WiringFor(T, how), r.value.3, r.value.1;
      && G2.nodes == G.nodes
      && (!T.Single? && m == OneToOne ==> G2 == G.(selfs := G.selfs + made) && r.value.2 == T)
      && (T.Single? || m != OneToOne ==> G2.outs == G.outs + made && G2.selfs == G.selfs)
      && (T.Itself? && m != OneToOne ==> G2.ins == G.ins + made && r.value.2 == T)
      && (T.Other? && m != OneToOne ==> G2.ins == G.ins && r.value.2 == Other(T.group.(ins := T.group.ins + made)))
      && (T.Single? ==> G2.ins == G.ins && r.value.2 == T)
  {
    var m := WiringFor(T, how);
    var ps :- Pairs(G, T, m);
    PairsInRange(G, T, m, |h.nodes|);
    var done :- LinkPairs(h, ps, weight, draws, 0);
    var made := done.1;
    match T
    case Single(_) => Ok((done.0, G.(outs := G.outs + made), T, made))
    case Itself =>
      if m == OneToOne then Ok((done.0, G.(selfs := G.selfs + made), T, made))
      else Ok((done.0, G.(outs := G.outs + made, ins := G.ins + made), T, made))
    case Other(g) =>
      if m == OneToOne then Ok((done.0, G.(selfs := G.selfs + made), T, made))
      else Ok((done.0, G.(outs := G.outs + made), Other(g.(ins := g.ins + made)), made))
  }

  /** Every node of `xs` projects to every node of `ys`; with `skipEqual`, to every other one. */
  predicate AllWired(h: Heap, xs: seq<nat>, ys: seq<nat>, skipEqual: bool)
    requires Wf(h) && IdsBelow(xs, |h.nodes|) && IdsBelow(ys, |h.nodes|)
  {
    forall i, j | 0 <= i < |xs| && 0 <= j < |ys| && (!skipEqual || xs[i] != ys[j]) :: IsProjectingTo(h, xs[i], ys[j])
  }

  /** The i-th node of `xs` projects to the i-th node of `ys`. */
  predicate PairWired(h: Heap, xs: seq<nat>, ys: seq<nat>)
    requires Wf(h) && IdsBelow(xs, |h.nodes|) && IdsBelow(ys, |h.nodes|) && |xs| == |ys|
  {
    forall i | 0 <= i < |xs| :: IsProjectingTo(h, xs[i], ys[i])
  }

  /** No node of `xs` projects to a different node of `ys`. */
  predicate Unwired(h: Heap, xs: seq<nat>, ys: seq<nat>)
    requires Wf(h) && IdsBelow(xs, |h.nodes|) && IdsBelow(ys, |h.nodes|)
  {
    forall i, j | 0 <= i < |xs| && 0 <= j < |ys| && xs[i] != ys[j] :: !IsProjectingTo(h, xs[i], ys[j])
  }

  /**
    What each wiring achieves on a linked arena: links and every earlier
    projection survive, and ALL_TO_ALL (or a node target) makes every node
    project to every target node, ALL_TO_ELSE to every other one, and
    ONE_TO_ONE each node to its counterpart.
   */
  lemma ConnectToProjects(h: Heap, G: Group, T: Target, how: Option<Wiring>, weight: Option<real>, draws: nat -> real)
    requires Linked(h) && IdsBelow(G.nodes, |h.nodes|) && IdsBelow(TargetNodes(G, T), |h.nodes|)
    requires ConnectTo(h, G, T, how, weight, draws).Ok?
    ensures var h2, m, ys := ConnectTo(h, G, T, how, weight, draws).value.0, WiringFor(T, how), TargetNodes(G, T);
      && Linked(h2) && KeepsProjections(h, h2)
      && (T.Single? || m == AllToAll ==> AllWired(h2, G.nodes, ys, false))
      && (!T.Single? && m == AllToElse ==> AllWired(h2, G.nodes, ys, true))
      && (!T.Single? && m == OneToOne ==> |G.nodes| == |ys| && PairWired(h2, G.nodes, ys))
  {
    var m, ys := WiringFor(T, how), TargetNodes(G, T);
    var ps := Pairs(G, T, m).value;
    PairsInRange(G, T, m, |h.nodes|);
    LinkPairsProjects(h, ps, weight, draws, 0);
    var h2 := LinkPairs(h, ps, weight, draws, 0).value.0;
    assert ConnectTo(h, G, T, how, weight, draws).value.0 == h2;
    if T.Single? {
      assert ys[0] == T.node;
      ColumnWired(h2, G.nodes, T.node);
    } else if m == AllToAll {
      GridWired(h2, G.nodes, ys);
    } else if m == AllToElse {
      UnequalWired(h2, G.nodes, ys);
    } else {
      ZipWired(h2, G.nodes, ys);
    }
  }

  lemma ColumnWired(h: Heap, xs: seq<nat>, y: nat)
    requires Wf(h) && IdsBelow(xs, |h.nodes|) && y < |h.nodes| && PairsBelow(Column(xs, y), |h.nodes|)
    requires PairsWired(h, Column(xs, y))
    ensures AllWired(h, xs, [y], false)
  {
    forall i, j | 0 <= i < |xs| && 0 <= j < 1 ensures IsProjectingTo(h, xs[i], [y][j]) {
      assert Column(xs, y)[i] == (xs[i], y);
    }
  }

  lemma GridWired(h: Heap, xs: seq<nat>, ys: seq<nat>)
    requires Wf(h) && IdsBelow(xs, |h.nodes|) && IdsBelow(ys, |h.nodes|) && PairsBelow(Grid(xs, ys), |h.nodes|)
    requires PairsWired(h, Grid(xs, ys))
    ensures AllWired(h, xs, ys, false)
  {
    forall i, j | 0 <= i < |xs| && 0 <= j < |ys| ensures IsProjectingTo(h, xs[i], ys[j]) {
      assert Grid(xs, ys)[Flat(i, j, |ys|)] == (xs[i], ys[j]);
    }
  }

  lemma UnequalWired(h: Heap, xs: seq<nat>, ys: seq<nat>)
    requires Wf(h) && IdsBelow(xs, |h.nodes|) && IdsBelow(ys, |h.nodes|) && PairsBelow(Unequal(Grid(xs, ys)), |h.nodes|)
    requires PairsWired(h, Unequal(Grid(xs, ys)))
    ensures AllWired(h, xs, ys, true)
  {
    var ps := Unequal(Grid(xs, ys));
    forall i, j | 0 <= i < |xs| && 0 <= j < |ys| && xs[i] != ys[j] ensures IsProjectingTo(h, xs[i], ys[j]) {
      assert Grid(xs, ys)[Flat(i, j, |ys|)] == (xs[i], ys[j]);
      assert (xs[i], ys[j]) in ps;
      var t :| 0 <= t < |ps| && ps[t] == (xs[i], ys[j]);
    }
  }

  lemma ZipWired(h: Heap, xs: seq<nat>, ys: seq<nat>)
    requires Wf(h) && IdsBelow(xs, |h.nodes|) && IdsBelow(ys, |h.nodes|) && |xs| == |ys| && PairsBelow(Zip(xs, ys), |h.nodes|)
    requires PairsWired(h, Zip(xs, ys))
    ensures PairWired(h, xs, ys)
  {
    forall i | 0 <= i < |xs| ensures IsProjectingTo(h, xs[i], ys[i]) {
      assert Zip(xs, ys)[i] == (xs[i], ys[i]);
    }
  }

  /**
    With distinct nodes on each side and no projection yet from a group
    node to a different target node, `connect` throws exactly when
    ONE_TO_ONE sizes differ.
   */
  lemma ConnectToSucceeds(h: Heap, G: Group, T: Target, how: Option<Wiring>, weight: Option<real>, draws: nat -> real)
    requires Wf(h) && IdsBelow(G.nodes, |h.nodes|) && IdsBelow(TargetNodes(G, T), |h.nodes|)
    requires Distinct(G.nodes) && Distinct(TargetNodes(G, T))
    requires Unwired(h, G.nodes, TargetNodes(G, T))
    ensures ConnectTo(h, G, T, how, weight, draws).Ok? <==> Pairs(G, T, WiringFor(T, how)).Ok?
  {
    var m, ys := WiringFor(T, how), TargetNodes(G, T);
    if Pairs(G, T, m).Ok? {
      var ps := Pairs(G, T, m).value;
      PairsInRange(G, T, m, |h.nodes|);
      PairsDistinct(G, T, m);
      PairsFromTo(G, T, m);
      forall t | 0 <= t < |ps| && ps[t].0 != ps[t].1 ensures !IsProjectingTo(h, ps[t].0, ps[t].1) {
        assert ps[t] in ps;
        var i :| 0 <= i < |G.nodes| && G.nodes[i] == ps[t].0;
        var j :| 0 <= j < |ys| && ys[j] == ps[t].1;
      }
      LinkPairsOk(h, ps, weight, draws, 0);
    }
  }

  /**
    Two new groups on a linked arena, the first connected to the second
    with the default method: the connect succeeds, is ALL_TO_ALL, and
    every node of the first projects to every node of the second.
   */
  lemma NewGroupsConnect(h: Heap, n1: nat, n2: nat, draw: nat -> real, weight: Option<real>, draws: nat -> real)
    requires Linked(h)
    ensures
      var h1, G1 := NewGroup(h, n1, draw).0, NewGroup(h, n1, draw).1;
      var h2, G2 := NewGroup(h1, n2, draw).0, NewGroup(h1, n2, draw).1;
      && IdsBelow(G1.nodes, |h2.nodes|)
      && ConnectTo(h2, G1, Other(G2), None, weight, draws).Ok?
      && |ConnectTo(h2, G1, Other(G2), None, weight, draws).value.3| == Flat(n1, 0, n2)
      && AllWired(ConnectTo(h2, G1, Other(G2), None, weight, draws).value.0, G1.nodes, G2.nodes, false)
  {
    var h1, G1 := NewGroup(h, n1, draw).0, NewGroup(h, n1, draw).1;
    var h2, G2 := NewGroup(h1, n2, draw).0, NewGroup(h1, n2, draw).1;
    NewGroupsApart(h, n1, n2, draw);
    ConnectToSucceeds(h2, G1, Other(G2), None, weight, draws);
    ConnectToProjects(h2, G1, Other(G2), None, weight, draws);
  }

  /** Two new groups in a row: links kept, and the first projects to nothing in the second. */
  lemma NewGroupsApart(h: Heap, n1: nat, n2: nat, draw: nat -> real)
    requires Linked(h)
    ensures
      var h1, G1 := NewGroup(h, n1, draw).0, NewGroup(h, n1, draw).1;
      var h2, G2 := NewGroup(h1, n2, draw).0, NewGroup(h1, n2, draw).1;
      && Linked(h2) && IdsBelow(G1.nodes, |h2.nodes|) && Unwired(h2, G1.nodes, G2.nodes)
  {
    var h1, G1 := NewGroup(h, n1, draw).0, NewGroup(h, n1, draw).1;
    var h2, G2 := NewGroup(h1, n2, draw).0, NewGroup(h1, n2, draw).1;
    NewGroupLinked(h, n1, draw);
    NewGroupLinked(h1, n2, draw);
    AllFreshKept(h1, h2, G1.nodes, |h.nodes|, |h.conns|);
    FreshUnwired(h2, G1.nodes, G2.nodes, |h.nodes|, |h.conns|);
  }

  /** Appending to the arena keeps fresh nodes fresh. */
  lemma AllFreshKept(h: Heap, h2: Heap, ids: seq<nat>, n: nat, c: nat)
    requires AllFresh(h, ids, n, c)
    requires |h.nodes| <= |h2.nodes| && |h.conns| <= |h2.conns|
    requires forall k | 0 <= k < |h.nodes| :: h2.nodes[k] == h.nodes[k]
    requires forall k | 0 <= k < |h.conns| :: h2.conns[k] == h.conns[k]
    ensures AllFresh(h2, ids, n, c) && IdsBelow(ids, |h2.nodes|)
  {
    forall i | 0 <= i < |ids| ensures ids[i] == n + i && FreshAt(h2, ids[i], Hidden, c + i) {
      FreshAtKept(h, h2, ids[i], Hidden, c + i);
    }
  }

  /** Fresh nodes project to nothing. */
  lemma FreshUnwired(h: Heap, xs: seq<nat>, ys: seq<nat>, n: nat, c: nat)
    requires Wf(h) && AllFresh(h, xs, n, c) && IdsBelow(xs, |h.nodes|) && IdsBelow(ys, |h.nodes|)
    ensures Unwired(h, xs, ys)
  {
    forall i, j | 0 <= i < |xs| && 0 <= j < |ys| && xs[i] != ys[j] ensures !IsProjectingTo(h, xs[i], ys[j]) {
      FreshProjectsNowhere(h, xs[i], Hidden, c + i, ys[j]);
    }
  }

  // -------------------------------------------------------------------- gate

  /** The elements of `s`, each once, in order of first appearance. */
  function Dedup(s: seq<nat>): (d: seq<nat>)
    ensures Distinct(d)
    ensures forall x :: x in d <==> x in s
    decreases |s|
  {
    if s == [] then []
    else
      var last := |s| - 1;
      var d := Dedup(s[..last]);
      assert forall x :: x in s <==> x in s[..last] || x == s[last];
      if s[last] in d then d else d + [s[last]]
  }

  /** The end a gating method looks at: the target under INPUT, the source otherwise. */
  function EndOf(h: Heap, m: Gating, c: nat): (n: nat)
    requires Wf(h) && c < |h.conns|
    ensures n < |h.nodes|
  {
    assert ConnWf(h.conns[c], |h.nodes|);
    if m == GateInput then h.conns[c].to else h.conns[c].from
  }

  /** The ends of the given connections, in order: `nodes2` under INPUT, `nodes1` otherwise. */
  function Ends(h: Heap, m: Gating, cs: seq<nat>): (e: seq<nat>)
    requires Wf(h) && IdsBelow(cs, |h.conns|)
    ensures |e| == |cs| && IdsBelow(e, |h.nodes|)
    ensures forall i | 0 <= i < |cs| :: e[i] == EndOf(h, m, cs[i])
  {
    seq(|cs|, i requires 0 <= i < |cs| => EndOf(h, m, cs[i]))
  }

  /** What a node offers a gating method: its incoming list, its outgoing list, or its self-connection. */
  function Offered(h: Heap, m: Gating, n: nat): (cs: seq<nat>)
    requires Wf(h) && n < |h.nodes|
    ensures IdsBelow(cs, |h.conns|)
  {
    assert NodeWf(h.nodes[n], |h.conns|);
    match m
    case GateInput => h.nodes[n].inConns
    case GateOutput => h.nodes[n].outConns
    case GateSelf => [h.nodes[n].selfConn]
  }

  /** The entries of `s` that are in `cs`, in order: the `connections.includes(conn)` test. */
  function Within(s: seq<nat>, cs: seq<nat>): (r: seq<nat>)
    ensures forall c :: c in r <==> c in s && c in cs
    ensures forall i | 0 <= i < |r| :: r[i] in s
    decreases |s|
  {
    if s == [] then []
    else
      var rest := Within(s[1..], cs);
      assert forall c :: c in s <==> c == s[0] || c in s[1..];
      if s[0] in cs then [s[0]] + rest else rest
  }

  lemma WithinBelow(s: seq<nat>, cs: seq<nat>, n: nat)
    requires IdsBelow(s, n)
    ensures IdsBelow(Within(s, cs), n)
  {
    var r := Within(s, cs);
    forall i | 0 <= i < |r| ensures r[i] < n {
      var j :| 0 <= j < |s| && s[j] == r[i];
    }
  }

  /**
    The gating loop from position `i` of `ns` on: the `i`-th node's offered
    connections that are among `cs` are gated by the group's node
    `i % size`. An empty group reads `this.nodes[NaN]`, which throws as
    soon as there is a connection to gate.
   */
  function GateFrom(h: Heap, G: Group, m: Gating, ns: seq<nat>, cs: seq<nat>, i: nat): (r: Result<Heap>)
    requires Wf(h) && IdsBelow(G.nodes, |h.nodes|) && IdsBelow(ns, |h.nodes|) && i <= |ns|
    ensures r.Err? ==> r.error == Undefined && |G.nodes| == 0
    ensures |G.nodes| == 0 ==>
      && (r.Ok? <==> forall j | i <= j < |ns| :: Within(Offered(h, m, ns[j]), cs) == [])
      && (r.Ok? ==> r.value == h)
    ensures r.Ok? ==> Wf(r.value) && GatedOnly(h, r.value, G.nodes, cs)
    decreases |ns| - i
  {
    if i == |ns| then Ok(h)
    else
      var sel := Within(Offered(h, m, ns[i]), cs);
      WithinBelow(Offered(h, m, ns[i]), cs, |h.conns|);
      if |G.nodes| == 0 then
        if sel == [] then GateFrom(h, G, m, ns, cs, i + 1) else Err(Undefined)
      else
        var g := G.nodes[i % |G.nodes|];
        var h1 := Nodes.Gate(h, g, sel);
        GateGatedOnly(h, g, sel, G.nodes, cs);
        var r := GateFrom(h1, G, m, ns, cs, i + 1);
        if r.Ok? then GatedOnlyTrans(h, h1, r.value, G.nodes, cs); r else r
  }

  /**
    `h2` differs from `h` only in the gating bookkeeping: the edges are the
    same, no connection outside `cs` changes and no node outside `gs`.
   */
  predicate GatedOnly(h: Heap, h2: Heap, gs: seq<nat>, cs: seq<nat>) {
    && SameEdges(h, h2)
    && (forall c | 0 <= c < |h.conns| && c !in cs :: h2.conns[c] == h.conns[c])
    && (forall n | 0 <= n < |h.nodes| && n !in gs :: h2.nodes[n] == h.nodes[n])
  }

  lemma GateGatedOnly(h: Heap, g: nat, sel: seq<nat>, gs: seq<nat>, cs: seq<nat>)
    requires Wf(h) && g < |h.nodes| && IdsBelow(sel, |h.conns|) && g in gs
    requires forall c | c in sel :: c in cs
    ensures GatedOnly(h, Nodes.Gate(h, g, sel), gs, cs)
  {
  }

  lemma GatedOnlyTrans(h: Heap, h1: Heap, h2: Heap, gs: seq<nat>, cs: seq<nat>)
    requires GatedOnly(h, h1, gs, cs) && GatedOnly(h1, h2, gs, cs)
    ensures GatedOnly(h, h2, gs, cs)
  {
  }

  /** Each connection a node offers has that node as the end the method looks at. */
  predicate EndsAgree(h: Heap, m: Gating)
    requires Wf(h)
  {
    forall n, j | 0 <= n < |h.nodes| && 0 <= j < |Offered(h, m, n)| :: EndOf(h, m, Offered(h, m, n)[j]) == n
  }

  lemma LinkedEndsAgree(h: Heap, m: Gating)
    requires Linked(h)
    ensures EndsAgree(h, m)
  {
    forall n, j | 0 <= n < |h.nodes| && 0 <= j < |Offered(h, m, n)| ensures EndOf(h, m, Offered(h, m, n)[j]) == n {
      assert NodeLinked(h, n);
    }
  }

  lemma SameEdgesOffer(h: Heap, h1: Heap, m: Gating)
    requires Wf(h) && Wf(h1) && SameEdges(h, h1)
    ensures forall n | 0 <= n < |h.nodes| :: Offered(h1, m, n) == Offered(h, m, n)
    ensures forall c | 0 <= c < |h.conns| :: EndOf(h1, m, c) == EndOf(h, m, c)
    ensures EndsAgree(h, m) ==> EndsAgree(h1, m)
  {
  }

  /** Whether the loop from position `i` on gates `c`: `c` is asked for and offered by its end, which comes at or after `i`. */
  predicate Selected(h: Heap, m: Gating, ns: seq<nat>, cs: seq<nat>, i: nat, c: nat)
    requires Wf(h) && c < |h.conns|
  {
    c in cs && c in Offered(h, m, EndOf(h, m, c)) && i <= IndexOf(ns, EndOf(h, m, c))
  }

  /** The gater the round robin gives the end at its position in `ns`. */
  function GaterAt(G: Group, ns: seq<nat>, e: nat): nat
    requires |G.nodes| > 0 && e in ns
  {
    G.nodes[IndexOf(ns, e) % |G.nodes|]
  }

  /**
    Position `i` gates exactly the connections it selects: those are
    selected from `i` on but not from `i + 1` on, and for every other
    connection the two agree.
   */
  lemma SelectedStep(h: Heap, m: Gating, ns: seq<nat>, cs: seq<nat>, i: nat, c: nat)
    requires Wf(h) && IdsBelow(ns, |h.nodes|) && i < |ns| && Distinct(ns) && EndsAgree(h, m) && c < |h.conns|
    ensures c in Within(Offered(h, m, ns[i]), cs) ==>
      && Selected(h, m, ns, cs, i, c) && !Selected(h, m, ns, cs, i + 1, c)
      && EndOf(h, m, c) == ns[i] && IndexOf(ns, ns[i]) == i
    ensures c !in Within(Offered(h, m, ns[i]), cs) ==> Selected(h, m, ns, cs, i, c) == Selected(h, m, ns, cs, i + 1, c)
  {
    var e := EndOf(h, m, c);
    if c in Within(Offered(h, m, ns[i]), cs) {
      var j :| 0 <= j < |Offered(h, m, ns[i])| && Offered(h, m, ns[i])[j] == c;
      assert e == ns[i];
      assert IndexOf(ns, e) == i;
    } else if e in ns && IndexOf(ns, e) == i {
      assert !Selected(h, m, ns, cs, i, c);
    }
  }

  /**
    With a non-empty group, distinct ends and agreeing lists, the loop
    from `i` on gives every selected connection the gater of its end's
    position and leaves every other connection alone.
   */
  lemma {:induction false} GateFromAssigns(h: Heap, G: Group, m: Gating, ns: seq<nat>, cs: seq<nat>, i: nat, c: nat)
    requires Wf(h) && IdsBelow(G.nodes, |h.nodes|) && IdsBelow(ns, |h.nodes|) && i <= |ns|
    requires |G.nodes| > 0 && Distinct(ns) && EndsAgree(h, m) && c < |h.conns|
    ensures GateFrom(h, G, m, ns, cs, i).Ok?
    ensures GateFrom(h, G, m, ns, cs, i).value.conns[c] ==
      if Selected(h, m, ns, cs, i, c) then h.conns[c].(gater := Some(GaterAt(G, ns, EndOf(h, m, c)))) else h.conns[c]
    decreases |ns| - i
  {
    if i < |ns| {
      var sel := Within(Offered(h, m, ns[i]), cs);
      WithinBelow(Offered(h, m, ns[i]), cs, |h.conns|);
      var h1 := Nodes.Gate(h, G.nodes[i % |G.nodes|], sel);
      assert SameEdges(h, h1);
      SameEdgesOffer(h, h1, m);
      GateFromAssigns(h1, G, m, ns, cs, i + 1, c);
      assert Selected(h1, m, ns, cs, i + 1, c) == Selected(h, m, ns, cs, i + 1, c);
      SelectedStep(h, m, ns, cs, i, c);
    }
  }

  /**
    `group.gate(connections, method)`: no method throws; otherwise the ends
    the method looks at are collected once each, in order, and the
    connections each end offers that are among those asked for are gated
    round robin by the group's nodes.
   */
  function GateBy(h: Heap, G: Group, cs: seq<nat>, how: Option<Gating>): (r: Result<Heap>)
    requires Wf(h) && IdsBelow(G.nodes, |h.nodes|) && IdsBelow(cs, |h.conns|)
    ensures how.None? <==> r == Err(NoGatingMethod)
    ensures r.Err? ==> r.error == NoGatingMethod || (r.error == Undefined && |G.nodes| == 0)
    ensures r.Ok? ==> Wf(r.value) && GatedOnly(h, r.value, G.nodes, cs)
  {
    match how
    case None => Err(NoGatingMethod)
    case Some(m) =>
      var ns := Dedup(Ends(h, m, cs));
      assert IdsBelow(ns, |h.nodes|) by {
        forall j | 0 <= j < |ns| ensures ns[j] < |h.nodes| {
          assert ns[j] in Ends(h, m, cs);
        }
      }
      GateFrom(h, G, m, ns, cs, 0)
  }

  /**
    On a linked arena with a non-empty group, gating succeeds; a
    connection asked for that its end offers is gated by the group node at
    its end's position, round robin, and every other connection is left
    alone.
   */
  lemma GateByAssigns(h: Heap, G: Group, cs: seq<nat>, m: Gating, c: nat)
    requires Linked(h) && IdsBelow(G.nodes, |h.nodes|) && IdsBelow(cs, |h.conns|)
    requires |G.nodes| > 0 && c < |h.conns|
    ensures GateBy(h, G, cs, Some(m)).Ok?
    ensures c in cs ==> EndOf(h, m, c) in Dedup(Ends(h, m, cs))
    ensures GateBy(h, G, cs, Some(m)).value.conns[c] ==
      if c in cs && c in Offered(h, m, EndOf(h, m, c))
      then h.conns[c].(gater := Some(GaterAt(G, Dedup(Ends(h, m, cs)), EndOf(h, m, c))))
      else h.conns[c]
  {
    var ns := Dedup(Ends(h, m, cs));
    assert IdsBelow(ns, |h.nodes|) by {
      forall j | 0 <= j < |ns| ensures ns[j] < |h.nodes| {
        assert ns[j] in Ends(h, m, cs);
      }
    }
    if c in cs {
      var k :| 0 <= k < |cs| && cs[k] == c;
      assert Ends(h, m, cs)[k] == EndOf(h, m, c);
    }
    LinkedEndsAgree(h, m);
    GateFromAssigns(h, G, m, ns, cs, 0, c);
  }

  /**
    On a linked arena, an empty group throws exactly when some connection
    asked for is offered by its end, that is, when there is something to
    gate.
   */
  lemma GateByEmptyGroup(h: Heap, G: Group, cs: seq<nat>, m: Gating)
    requires Linked(h) && IdsBelow(cs, |h.conns|) && G.nodes == []
    ensures GateBy(h, G, cs, Some(m)).Err? <==> exists c | c in cs :: c in Offered(h, m, EndOf(h, m, c))
  {
    LinkedEndsAgree(h, m);
    if exists c | c in cs :: c in Offered(h, m, EndOf(h, m, c)) {
      var c :| c in cs && c in Offered(h, m, EndOf(h, m, c));
      EmptyGroupThrows(h, G, cs, m, c);
    }
    if GateBy(h, G, cs, Some(m)).Err? {
      EmptyGroupThrew(h, G, cs, m);
    }
  }

  lemma EndsBelow(h: Heap, m: Gating, cs: seq<nat>)
    requires Wf(h) && IdsBelow(cs, |h.conns|)
    ensures IdsBelow(Dedup(Ends(h, m, cs)), |h.nodes|)
  {
    var ns := Dedup(Ends(h, m, cs));
    forall j | 0 <= j < |ns| ensures ns[j] < |h.nodes| {
      assert ns[j] in Ends(h, m, cs);
    }
  }

  lemma EmptyGroupThrows(h: Heap, G: Group, cs: seq<nat>, m: Gating, c: nat)
    requires Wf(h) && IdsBelow(cs, |h.conns|) && G.nodes == []
    requires c in cs && c < |h.conns| && c in Offered(h, m, EndOf(h, m, c))
    ensures GateBy(h, G, cs, Some(m)).Err?
  {
    var ns := Dedup(Ends(h, m, cs));
    EndsBelow(h, m, cs);
    var k :| 0 <= k < |cs| && cs[k] == c;
    assert Ends(h, m, cs)[k] == EndOf(h, m, c);
    assert EndOf(h, m, c) in Ends(h, m, cs) && EndOf(h, m, c) in ns;
    var j :| 0 <= j < |ns| && ns[j] == EndOf(h, m, c);
    assert c in Within(Offered(h, m, ns[j]), cs);
  }

  lemma EmptyGroupThrew(h: Heap, G: Group, cs: seq<nat>, m: Gating)
    requires Wf(h) && IdsBelow(cs, |h.conns|) && G.nodes == [] && EndsAgree(h, m)
    requires GateBy(h, G, cs, Some(m)).Err?
    ensures exists c | c in cs :: c in Offered(h, m, EndOf(h, m, c))
  {
    var ns := Dedup(Ends(h, m, cs));
    EndsBelow(h, m, cs);
    var j :| 0 <= j < |ns| && Within(Offered(h, m, ns[j]), cs) != [];
    var c := Within(Offered(h, m, ns[j]), cs)[0];
    var q :| 0 <= q < |Offered(h, m, ns[j])| && Offered(h, m, ns[j])[q] == c;
    assert EndOf(h, m, c) == ns[j];
  }

  // -------------------------------------------------------------- disconnect

  /** Connection `c` runs from `a` to `b`. */
  predicate Runs(h: Heap, c: nat, a: nat, b: nat)
    requires c < |h.conns|
  {
    h.conns[c].from == a && h.conns[c].to == b
  }

  /** The position of the last of the first `k` entries that runs from `a` to `b`, or -1. */
  function LastRunning(h: Heap, s: seq<nat>, a: nat, b: nat, k: nat): (i: int)
    requires IdsBelow(s, |h.conns|) && k <= |s|
    ensures -1 <= i < k
    ensures i >= 0 ==> Runs(h, s[i], a, b)
    ensures forall j | i < j < k :: !Runs(h, s[j], a, b)
    decreases k
  {
    if k == 0 then -1
    else if Runs(h, s[k - 1], a, b) then k - 1
    else LastRunning(h, s, a, b, k - 1)
  }

  /**
    A recorded list after the backward scan that splices out the first
    match it meets: without an entry running from `a` to `b` it is
    unchanged, and otherwise it loses exactly its last such entry.
   */
  function DropLast(h: Heap, s: seq<nat>, a: nat, b: nat): (r: seq<nat>)
    requires IdsBelow(s, |h.conns|)
    ensures IdsBelow(r, |h.conns|)
    ensures (forall j | 0 <= j < |s| :: !Runs(h, s[j], a, b)) ==> r == s
    ensures (exists j | 0 <= j < |s| :: Runs(h, s[j], a, b)) ==>
      exists i | 0 <= i < |s| :: && Runs(h, s[i], a, b)
                                 && (forall j | i < j < |s| :: !Runs(h, s[j], a, b))
                                 && r == RemoveAt(s, i)
  {
    var i := LastRunning(h, s, a, b, |s|);
    if i < 0 then s
    else
      var r := RemoveAt(s, i);
      assert IdsBelow(r, |h.conns|) by {
        forall k | 0 <= k < |r| ensures r[k] < |h.conns| {
          if k >= i { assert r[k] == s[k + 1]; }
        }
      }
      r
  }

  /** `DisconnectOne` moves no connection's ends and revives nothing; its outgoing lists only shrink. */
  lemma DisconnectOneShrinks(h: Heap, a: nat, b: nat)
    requires Wf(h) && a < |h.nodes| && b < |h.nodes| && a != b
    ensures var h2 := DisconnectOne(h, a, b);
      && (forall c | 0 <= c < |h.conns| :: Runs(h2, c, h.conns[c].from, h.conns[c].to) && h2.conns[c].weight == h.conns[c].weight)
      && (forall x | 0 <= x < |h.nodes| :: h2.nodes[x].selfConn == h.nodes[x].selfConn)
      && (forall x, c | 0 <= x < |h.nodes| && c in h2.nodes[x].outConns :: c in h.nodes[x].outConns)
  {
    assert NodeWf(h.nodes[a], |h.conns|);
    var outs := h.nodes[a].outConns;
    var i := FirstTo(h, outs, b);
    if i < |outs| {
      var c := outs[i];
      var h1 := Unlink(h, a, b, i);
      assert forall x | 0 <= x < |h.nodes| && x != a :: h1.nodes[x].outConns == h.nodes[x].outConns;
      assert forall x | 0 <= x < |h.nodes| :: h1.nodes[x].selfConn == h.nodes[x].selfConn;
      if h.conns[c].gater.Some? {
        assert ConnWf(h.conns[c], |h.nodes|);
        var h2 := UngateOne(h1, h.conns[c].gater.value, c);
        assert forall x | 0 <= x < |h.nodes| :: h2.nodes[x].outConns == h1.nodes[x].outConns && h2.nodes[x].selfConn == h1.nodes[x].selfConn;
      }
    }
  }

  /**
    On a linked arena, one direction of `node.disconnect` loses
    projections only, and the source no longer projects to the target:
    a node holds at most one outgoing connection per target.
   */
  lemma DisconnectOneCuts(h: Heap, a: nat, b: nat)
    requires Linked(h) && a < |h.nodes| && b < |h.nodes| && a != b
    ensures KeepsProjections(DisconnectOne(h, a, b), h)
    ensures !IsProjectingTo(DisconnectOne(h, a, b), a, b)
  {
    var h2 := DisconnectOne(h, a, b);
    DisconnectOneShrinks(h, a, b);
    assert WiringKept(h2, h, None);
    WiringKeepsProjections(h2, h, None);
    DisconnectOneSevers(h, a, b);
  }

  /** After one direction of `node.disconnect` no outgoing connection of the source reaches the target. */
  lemma DisconnectOneSevers(h: Heap, a: nat, b: nat)
    requires Linked(h) && a < |h.nodes| && b < |h.nodes| && a != b
    ensures forall c | c in DisconnectOne(h, a, b).nodes[a].outConns :: DisconnectOne(h, a, b).conns[c].to != b
  {
    var h2 := DisconnectOne(h, a, b);
    DisconnectOneShrinks(h, a, b);
    assert NodeLinked(h, a) && TargetsUnique(h, a);
    assert NodeWf(h.nodes[a], |h.conns|);
    var outs := h.nodes[a].outConns;
    var i := FirstTo(h, outs, b);
    forall c | c in h2.nodes[a].outConns ensures h2.conns[c].to != b {
      var k :| 0 <= k < |h2.nodes[a].outConns| && h2.nodes[a].outConns[k] == c;
      if i < |outs| {
        if k < i {
          assert c == outs[k];
        } else {
          assert c == outs[k + 1];
        }
      } else {
        assert c == outs[k];
      }
    }
  }

  /**
    `a.disconnect(b, twosided)` on a linked arena keeps the links, loses
    projections only, and leaves `a` not projecting to `b` (nor `b` to
    `a` when two-sided).
   */
  lemma NodeDisconnectCuts(h: Heap, a: nat, b: nat, twosided: bool)
    requires Linked(h) && a < |h.nodes| && b < |h.nodes|
    ensures var h2 := Nodes.Disconnect(h, a, b, twosided);
      && Linked(h2) && KeepsProjections(h2, h) && !IsProjectingTo(h2, a, b)
      && (twosided ==> !IsProjectingTo(h2, b, a))
  {
    var h2 := Nodes.Disconnect(h, a, b, twosided);
    DisconnectLinked(h, a, b, twosided);
    if a == b {
      forall x | 0 <= x < |h.nodes| && SelfWeight(h2, x) != 0.0 ensures SelfWeight(h, x) != 0.0 {
        assert NodeLinked(h, x) && NodeLinked(h, a);
      }
      assert WiringKept(h2, h, None);
      WiringKeepsProjections(h2, h, None);
      assert NodeLinked(h, a) && OutLinked(h, a);
      assert NodeWf(h.nodes[a], |h.conns|);
      forall c | c in h2.nodes[a].outConns ensures h2.conns[c].to != a {
        var k :| 0 <= k < |h.nodes[a].outConns| && h.nodes[a].outConns[k] == c;
      }
    } else {
      DisconnectOneCuts(h, a, b);
      if twosided {
        var h1 := DisconnectOne(h, a, b);
        DisconnectOneLinked(h, a, b);
        DisconnectOneCuts(h1, b, a);
      }
    }
  }

  /**
    The disconnect loop over the pairs: `node.disconnect` for the pair,
    then the group forgets the last recorded outgoing connection running
    along it, and when two-sided the last recorded incoming one running
    back.
   */
  function DisconnectPairs(h: Heap, G: Group, ps: seq<(nat, nat)>, twosided: bool): (r: (Heap, Group))
    requires Wf(h) && GroupWf(h, G) && PairsBelow(ps, |h.nodes|)
    ensures Wf(r.0) && GroupWf(r.0, r.1) && |r.0.nodes| == |h.nodes| && |r.0.conns| == |h.conns|
    ensures r.1.nodes == G.nodes && r.1.selfs == G.selfs && (!twosided ==> r.1.ins == G.ins)
    decreases |ps|
  {
    if ps == [] then (h, G)
    else
      var a, b := ps[0].0, ps[0].1;
      var h1 := Nodes.Disconnect(h, a, b, twosided);
      var G1 := G.(outs := DropLast(h1, G.outs, a, b));
      var G2 := if twosided then G1.(ins := DropLast(h1, G1.ins, b, a)) else G1;
      PairsTail(ps, |h1.nodes|);
      DisconnectPairs(h1, G2, ps[1..], twosided)
  }

  /** `group.disconnect(target, twosided)`: the ALL_TO_ALL pairs of the group and the target, row by row. */
  function DisconnectFrom(h: Heap, G: Group, T: Target, twosided: bool): (r: (Heap, Group))
    requires Wf(h) && GroupWf(h, G) && IdsBelow(TargetNodes(G, T), |h.nodes|)
    ensures Wf(r.0) && GroupWf(r.0, r.1) && r.1.nodes == G.nodes && r.1.selfs == G.selfs
  {
    var ps := Pairs(G, T, AllToAll).value;
    PairsInRange(G, T, AllToAll, |h.nodes|);
    DisconnectPairs(h, G, ps, twosided)
  }

  /** No pair's source projects to its target, nor, when two-sided, the target to the source. */
  predicate PairsCut(h: Heap, ps: seq<(nat, nat)>, twosided: bool)
    requires Wf(h) && PairsBelow(ps, |h.nodes|)
  {
    forall t | 0 <= t < |ps| :: !IsProjectingTo(h, ps[t].0, ps[t].1) && (twosided ==> !IsProjectingTo(h, ps[t].1, ps[t].0))
  }

  lemma PairsCutCons(h: Heap, h2: Heap, ps: seq<(nat, nat)>, twosided: bool)
    requires Wf(h) && Wf(h2) && |h2.nodes| == |h.nodes| && ps != [] && PairsBelow(ps, |h.nodes|)
    requires !IsProjectingTo(h, ps[0].0, ps[0].1) && (twosided ==> !IsProjectingTo(h, ps[0].1, ps[0].0))
    requires KeepsProjections(h2, h) && PairsCut(h2, ps[1..], twosided)
    ensures PairsCut(h2, ps, twosided)
  {
    forall t | 0 < t < |ps| ensures !IsProjectingTo(h2, ps[t].0, ps[t].1) && (twosided ==> !IsProjectingTo(h2, ps[t].1, ps[t].0)) {
      assert ps[1..][t - 1] == ps[t];
    }
  }

  lemma {:induction false} DisconnectPairsCut(h: Heap, G: Group, ps: seq<(nat, nat)>, twosided: bool)
    requires Linked(h) && GroupWf(h, G) && PairsBelow(ps, |h.nodes|)
    ensures var h2 := DisconnectPairs(h, G, ps, twosided).0;
      Linked(h2) && KeepsProjections(h2, h) && PairsCut(h2, ps, twosided)
    decreases |ps|
  {
    if ps != [] {
      var a, b := ps[0].0, ps[0].1;
      var h1 := Nodes.Disconnect(h, a, b, twosided);
      var G1 := G.(outs := DropLast(h1, G.outs, a, b));
      var G2 := if twosided then G1.(ins := DropLast(h1, G1.ins, b, a)) else G1;
      NodeDisconnectCuts(h, a, b, twosided);
      PairsTail(ps, |h1.nodes|);
      DisconnectPairsCut(h1, G2, ps[1..], twosided);
      var h2 := DisconnectPairs(h1, G2, ps[1..], twosided).0;
      assert DisconnectPairs(h, G, ps, twosided).0 == h2;
      PairsCutCons(h1, h2, ps, twosided);
    }
  }

  /** No node of `xs` projects to any node of `ys`. */
  predicate NoneWired(h: Heap, xs: seq<nat>, ys: seq<nat>)
    requires Wf(h) && IdsBelow(xs, |h.nodes|) && IdsBelow(ys, |h.nodes|)
  {
    forall i, j | 0 <= i < |xs| && 0 <= j < |ys| :: !IsProjectingTo(h, xs[i], ys[j])
  }

  /**
    On a linked arena, `disconnect` keeps the links, loses projections
    only, and leaves no node of the group projecting to a target node (nor
    the other way round when two-sided): the partner of ALL_TO_ALL
    `connect`.
   */
  lemma DisconnectFromCuts(h: Heap, G: Group, T: Target, twosided: bool)
    requires Linked(h) && GroupWf(h, G) && IdsBelow(TargetNodes(G, T), |h.nodes|)
    ensures var h2 := DisconnectFrom(h, G, T, twosided).0;
      && Linked(h2) && KeepsProjections(h2, h)
      && NoneWired(h2, G.nodes, TargetNodes(G, T))
      && (twosided ==> NoneWired(h2, TargetNodes(G, T), G.nodes))
  {
    var ys := TargetNodes(G, T);
    var ps := Pairs(G, T, AllToAll).value;
    PairsInRange(G, T, AllToAll, |h.nodes|);
    DisconnectPairsCut(h, G, ps, twosided);
    var h2 := DisconnectFrom(h, G, T, twosided).0;
    forall i, j | 0 <= i < |G.nodes| && 0 <= j < |ys|
      ensures !IsProjectingTo(h2, G.nodes[i], ys[j]) && (twosided ==> !IsProjectingTo(h2, ys[j], G.nodes[i]))
    {
      if T.Single? {
        assert ps[i] == (G.nodes[i], ys[j]);
      } else {
        assert ps[Flat(i, j, |ys|)] == (G.nodes[i], ys[j]);
      }
    }
  }

  /** `node.disconnect` moves no connection's ends. */
  lemma NodeDisconnectEnds(h: Heap, a: nat, b: nat, twosided: bool)
    requires Wf(h) && a < |h.nodes| && b < |h.nodes|
    ensures forall c | 0 <= c < |h.conns| :: Runs(Nodes.Disconnect(h, a, b, twosided), c, h.conns[c].from, h.conns[c].to)
  {
    if a != b {
      DisconnectOneShrinks(h, a, b);
      if twosided {
        DisconnectOneShrinks(DisconnectOne(h, a, b), b, a);
      }
    }
  }

  /** Each recorded connection runs along its pair. */
  predicate RunAlong(h: Heap, made: seq<nat>, ps: seq<(nat, nat)>) {
    && |made| == |ps|
    && forall t | 0 <= t < |ps| :: made[t] < |h.conns| && Runs(h, made[t], ps[t].0, ps[t].1)
  }

  /** The scan for the first pair finds the first recorded connection: no later one runs along it. */
  lemma DropLastFront(h: Heap, kept: seq<nat>, made: seq<nat>, ps: seq<(nat, nat)>)
    requires ps != [] && Distinct(ps) && RunAlong(h, made, ps) && IdsBelow(kept + made, |h.conns|)
    ensures DropLast(h, kept + made, ps[0].0, ps[0].1) == kept + made[1..]
  {
    var s, p := kept + made, |kept|;
    var a, b := ps[0].0, ps[0].1;
    assert s[p] == made[0] && Runs(h, s[p], a, b);
    forall j | p < j < |s| ensures !Runs(h, s[j], a, b) {
      assert s[j] == made[j - p];
      assert ps[j - p] != ps[0];
    }
    var i :| 0 <= i < |s| && Runs(h, s[i], a, b) && (forall j | i < j < |s| :: !Runs(h, s[j], a, b)) && DropLast(h, s, a, b) == RemoveAt(s, i);
    assert i == p;
    assert RemoveAt(s, p) == kept + made[1..];
  }

  lemma RunAlongTail(h: Heap, h1: Heap, made: seq<nat>, ps: seq<(nat, nat)>)
    requires ps != [] && RunAlong(h, made, ps) && |h1.conns| == |h.conns|
    requires forall c | 0 <= c < |h.conns| :: Runs(h1, c, h.conns[c].from, h.conns[c].to)
    ensures RunAlong(h1, made, ps) && RunAlong(h1, made[1..], ps[1..])
  {
    forall t | 0 <= t < |ps| - 1 ensures made[1..][t] < |h1.conns| && Runs(h1, made[1..][t], ps[1..][t].0, ps[1..][t].1) {
      assert made[1..][t] == made[t + 1] && ps[1..][t] == ps[t + 1];
    }
  }

  /**
    When the outgoing list ends with one connection per pair, each running
    along its pair, and the pairs are distinct, the disconnect loop over
    those pairs removes exactly those connections.
   */
  lemma {:induction false} DropsRecorded(h: Heap, G: Group, ps: seq<(nat, nat)>, made: seq<nat>, kept: seq<nat>, twosided: bool)
    requires Wf(h) && GroupWf(h, G) && PairsBelow(ps, |h.nodes|) && Distinct(ps)
    requires G.outs == kept + made && RunAlong(h, made, ps)
    ensures DisconnectPairs(h, G, ps, twosided).1.outs == kept
    decreases |ps|
  {
    if ps != [] {
      var a, b := ps[0].0, ps[0].1;
      var h1 := Nodes.Disconnect(h, a, b, twosided);
      NodeDisconnectEnds(h, a, b, twosided);
      RunAlongTail(h, h1, made, ps);
      DropLastFront(h1, kept, made, ps);
      var G1 := G.(outs := DropLast(h1, G.outs, a, b));
      var G2 := if twosided then G1.(ins := DropLast(h1, G1.ins, b, a)) else G1;
      PairsTail(ps, |h1.nodes|);
      DistinctTail(ps);
      DropsRecorded(h1, G2, ps[1..], made[1..], kept, twosided);
    }
  }

  /**
    On a linked arena, disconnecting what an ALL_TO_ALL `connect` just
    wired, between distinct nodes, gives the group back its outgoing list.
   */
  lemma DisconnectUndoesConnect(h: Heap, G: Group, T: Target, weight: Option<real>, draws: nat -> real, twosided: bool)
    requires Linked(h) && GroupWf(h, G) && IdsBelow(TargetNodes(G, T), |h.nodes|)
    requires Distinct(G.nodes) && Distinct(TargetNodes(G, T))
    requires ConnectTo(h, G, T, Some(AllToAll), weight, draws).Ok?
    ensures var r := ConnectTo(h, G, T, Some(AllToAll), weight, draws).value;
      && GroupWf(r.0, r.1) && IdsBelow(TargetNodes(r.1, r.2), |r.0.nodes|)
      && DisconnectFrom(r.0, r.1, r.2, twosided).1.outs == G.outs
  {
    var r := ConnectTo(h, G, T, Some(AllToAll), weight, draws).value;
    var h2, G2, T2, made := r.0, r.1, r.2, r.3;
    var ps := Pairs(G, T, AllToAll).value;
    assert TargetNodes(G2, T2) == TargetNodes(G, T);
    assert Pairs(G2, T2, AllToAll).value == ps;
    PairsInRange(G, T, AllToAll, |h.nodes|);
    PairsDistinct(G, T, AllToAll);
    assert Joins(h, h2, ps, made);
    forall t | 0 <= t < |ps| ensures made[t] < |h2.conns| && Runs(h2, made[t], ps[t].0, ps[t].1) {
      if ps[t].0 == ps[t].1 {
        assert NodeLinked(h, ps[t].0) && NodeWf(h.nodes[ps[t].0], |h.conns|);
      }
    }
    assert RunAlong(h2, made, ps);
    assert GroupWf(h2, G2);
    DropsRecorded(h2, G2, ps, made, G.outs, twosided);
  }
}
