/**
  Nodes and the arena that holds every node and connection object.

  The library links nodes and connections by object reference: a node
  keeps its incoming, outgoing and gated connections in three arrays and
  owns a permanent self-connection, and a connection points back at its
  endpoints and its gater. The model keeps all of them in one arena: a
  node or connection is named by its position there, positions are never
  reused, and an object nothing refers to any more simply stays behind.
 */
module Nodes {
  import opened Base
  import opened Methods
  import opened Connections

  datatype Kind = Input | Hidden | Output | Constant

  /**
    A node. `inConns`, `outConns` and `gated` hold connection ids; the
    error fields are `error.responsibility`, `error.projected` and
    `error.gated`; `derivative` stays absent until the node is first
    activated; `index` is the cached position used by serialisation and
    crossover.
   */
  datatype Node = Node(
    bias: real,
    squash: Squash,
    kind: Kind,
    activation: real,
    state: real,
    oldState: real,
    mask: real,
    previousDeltaBias: real,
    totalDeltaBias: real,
    inConns: seq<nat>,
    outConns: seq<nat>,
    gated: seq<nat>,
    selfConn: nat,
    responsibility: real,
    projected: real,
    gatedError: real,
    derivative: Option<real>,
    index: Option<nat>)

  /** Every node and connection object, by id. */
  datatype Heap = Heap(nodes: seq<Node>, conns: seq<Connection>)

  predicate ConnWf(c: Connection, n: nat) {
    && c.from < n
    && c.to < n
    && (c.gater.Some? ==> c.gater.value < n)
    && |c.xtraceNodes| == |c.xtraceValues|
    && IdsBelow(c.xtraceNodes, n)
  }

  predicate IdsBelow(s: seq<nat>, m: nat) {
    forall i | 0 <= i < |s| :: s[i] < m
  }

  lemma IdsBelowConcat(a: seq<nat>, b: seq<nat>, m: nat)
    requires IdsBelow(a, m) && IdsBelow(b, m)
    ensures IdsBelow(a + b, m)
  {
    forall i | 0 <= i < |a + b| ensures (a + b)[i] < m {
      if i >= |a| { assert (a + b)[i] == b[i - |a|]; }
    }
  }

  lemma IdsBelowSuffix(s: seq<nat>, k: nat, m: nat)
    requires IdsBelow(s, m) && k <= |s|
    ensures IdsBelow(s[k..], m)
  {
    forall i | 0 <= i < |s| - k ensures s[k..][i] < m {
      assert s[k..][i] == s[k + i];
    }
  }

  predicate NodeWf(x: Node, m: nat) {
    && x.selfConn < m
    && IdsBelow(x.inConns, m)
    && IdsBelow(x.outConns, m)
    && IdsBelow(x.gated, m)
  }

  /** Every reference held in the arena points into the arena. */
  predicate Wf(h: Heap) {
    && (forall i | 0 <= i < |h.conns| :: ConnWf(h.conns[i], |h.nodes|))
    && (forall i | 0 <= i < |h.nodes| :: NodeWf(h.nodes[i], |h.conns|))
  }

  /** The arena `h2` keeps every object of `h` and may have more. */
  predicate Grows(h: Heap, h2: Heap) {
    |h.nodes| <= |h2.nodes| && |h.conns| <= |h2.conns|
  }

  /** Every node keeps its type. */
  predicate SameKinds(h: Heap, h2: Heap) {
    |h2.nodes| == |h.nodes| && forall n | 0 <= n < |h.nodes| :: h2.nodes[n].kind == h.nodes[n].kind
  }

  /** `h2` differs from `h` at most in values no link depends on: weights, gains, traces, biases, states. */
  predicate SameShape(h: Heap, h2: Heap) {
    && SameKinds(h, h2)
    && |h2.nodes| == |h.nodes|
    && |h2.conns| == |h.conns|
    && (forall c | 0 <= c < |h.conns| ::
          && h2.conns[c].from == h.conns[c].from
          && h2.conns[c].to == h.conns[c].to
          && h2.conns[c].gater == h.conns[c].gater)
    && (forall n | 0 <= n < |h.nodes| ::
          && h2.nodes[n].inConns == h.nodes[n].inConns
          && h2.nodes[n].outConns == h.nodes[n].outConns
          && h2.nodes[n].gated == h.nodes[n].gated
          && h2.nodes[n].selfConn == h.nodes[n].selfConn)
  }

  lemma SameShapeTrans(h1: Heap, h2: Heap, h3: Heap)
    requires SameShape(h1, h2) && SameShape(h2, h3)
    ensures SameShape(h1, h3)
  {
  }

  function SelfWeight(h: Heap, n: nat): real
    requires Wf(h) && n < |h.nodes|
  {
    h.conns[h.nodes[n].selfConn].weight
  }

  function PutNode(h: Heap, n: nat, x: Node): (r: Heap)
    requires Wf(h) && n < |h.nodes| && NodeWf(x, |h.conns|)
    ensures Wf(r) && r.conns == h.conns && r.nodes == h.nodes[n := x]
  {
    h.(nodes := h.nodes[n := x])
  }

  function PutConn(h: Heap, c: nat, x: Connection): (r: Heap)
    requires Wf(h) && c < |h.conns| && ConnWf(x, |h.nodes|)
    ensures Wf(r) && r.nodes == h.nodes && r.conns == h.conns[c := x]
  {
    h.(conns := h.conns[c := x])
  }

  // ---------------------------------------------------------------- creation

  /**
    `new Node(type)`: the node and its self-connection of weight 0 are
    appended to the arena. `draw` stands for the random bias a non-input
    node starts with.
   */
  function NewNode(h: Heap, kind: Option<Kind>, draw: real): (r: (Heap, nat))
    requires Wf(h)
    ensures Wf(r.0) && r.1 == |h.nodes|
    ensures |r.0.nodes| == |h.nodes| + 1 && r.0.nodes[..|h.nodes|] == h.nodes
    ensures r.0.conns == h.conns + [Connections.New(r.1, r.1, Some(0.0), 0.0)]
    ensures var x := r.0.nodes[r.1];
      && x.kind == kind.GetOr(Hidden)
      && x.bias == (if kind == Some(Input) then 0.0 else draw)
      && x.squash == Logistic
      && x.inConns == [] && x.outConns == [] && x.gated == []
      && x.selfConn == |h.conns|
      && x.mask == 1.0 && x.derivative == None && x.index == None
    ensures SelfWeight(r.0, r.1) == 0.0 && !IsProjectingTo(r.0, r.1, r.1)
  {
    var id := |h.nodes|;
    var self := Connections.New(id, id, Some(0.0), 0.0);
    var x := Node(if kind == Some(Input) then 0.0 else draw, Logistic, kind.GetOr(Hidden),
                  0.0, 0.0, 0.0, 1.0, 0.0, 0.0, [], [], [], |h.conns|, 0.0, 0.0, 0.0, None, None);
    var h2 := Heap(h.nodes + [x], h.conns + [self]);
    assert forall i | 0 <= i < |h2.conns| :: ConnWf(h2.conns[i], |h2.nodes|) by {
      forall i | 0 <= i < |h2.conns| ensures ConnWf(h2.conns[i], |h2.nodes|) {
        if i < |h.conns| { assert ConnWf(h.conns[i], |h.nodes|); }
      }
    }
    assert forall i | 0 <= i < |h2.nodes| :: NodeWf(h2.nodes[i], |h2.conns|) by {
      forall i | 0 <= i < |h2.nodes| ensures NodeWf(h2.nodes[i], |h2.conns|) {
        if i < |h.nodes| { assert NodeWf(h.nodes[i], |h.conns|); }
      }
    }
    assert h2.nodes[..|h.nodes|] == h.nodes;
    (h2, id)
  }

  // ------------------------------------------------------------- projection

  /** The position of the first connection in `outs` that ends at `b`, or |outs|. */
  function FirstTo(h: Heap, outs: seq<nat>, b: nat): (i: nat)
    requires Wf(h) && IdsBelow(outs, |h.conns|)
    ensures i <= |outs|
    ensures i < |outs| ==> h.conns[outs[i]].to == b
    ensures forall j | 0 <= j < i :: h.conns[outs[j]].to != b
  {
    FirstToAfter(h, outs, b, 0)
  }

  function FirstToAfter(h: Heap, outs: seq<nat>, b: nat, k: nat): (i: nat)
    requires Wf(h) && IdsBelow(outs, |h.conns|) && k <= |outs|
    requires forall j | 0 <= j < k :: h.conns[outs[j]].to != b
    ensures k <= i <= |outs|
    ensures i < |outs| ==> h.conns[outs[i]].to == b
    ensures forall j | 0 <= j < i :: h.conns[outs[j]].to != b
    decreases |outs| - k
  {
    if k == |outs| then k
    else if h.conns[outs[k]].to == b then k
    else FirstToAfter(h, outs, b, k + 1)
  }

  /** The position of the first connection in `ins` that starts at `b`, or |ins|. */
  function FirstFrom(h: Heap, ins: seq<nat>, b: nat): (i: nat)
    requires Wf(h) && IdsBelow(ins, |h.conns|)
    ensures i <= |ins|
    ensures i < |ins| ==> h.conns[ins[i]].from == b
    ensures forall j | 0 <= j < i :: h.conns[ins[j]].from != b
  {
    FirstFromAfter(h, ins, b, 0)
  }

  function FirstFromAfter(h: Heap, ins: seq<nat>, b: nat, k: nat): (i: nat)
    requires Wf(h) && IdsBelow(ins, |h.conns|) && k <= |ins|
    requires forall j | 0 <= j < k :: h.conns[ins[j]].from != b
    ensures k <= i <= |ins|
    ensures i < |ins| ==> h.conns[ins[i]].from == b
    ensures forall j | 0 <= j < i :: h.conns[ins[j]].from != b
    decreases |ins| - k
  {
    if k == |ins| then k
    else if h.conns[ins[k]].from == b then k
    else FirstFromAfter(h, ins, b, k + 1)
  }

  /**
    `a.isProjectingTo(b)`: `b` is `a` itself with a live self-connection,
    or some outgoing connection of `a` ends at `b`.
   */
  function IsProjectingTo(h: Heap, a: nat, b: nat): (r: bool)
    requires Wf(h) && a < |h.nodes|
    ensures r <==> (a == b && SelfWeight(h, a) != 0.0)
                   || exists c :: c in h.nodes[a].outConns && h.conns[c].to == b
  {
    assert NodeWf(h.nodes[a], |h.conns|);
    var outs := h.nodes[a].outConns;
    var i := FirstTo(h, outs, b);
    assert (exists c :: c in outs && h.conns[c].to == b) ==> i < |outs| by {
      if exists c :: c in outs && h.conns[c].to == b {
        var c :| c in outs && h.conns[c].to == b;
        var j :| 0 <= j < |outs| && outs[j] == c;
      }
    }
    (a == b && SelfWeight(h, a) != 0.0) || i < |outs|
  }

  /** `a.isProjectedBy(b)`: the mirror image of IsProjectingTo on incoming connections. */
  function IsProjectedBy(h: Heap, a: nat, b: nat): (r: bool)
    requires Wf(h) && a < |h.nodes|
    ensures r <==> (a == b && SelfWeight(h, a) != 0.0)
                   || exists c :: c in h.nodes[a].inConns && h.conns[c].from == b
  {
    assert NodeWf(h.nodes[a], |h.conns|);
    var ins := h.nodes[a].inConns;
    var i := FirstFrom(h, ins, b);
    assert (exists c :: c in ins && h.conns[c].from == b) ==> i < |ins| by {
      if exists c :: c in ins && h.conns[c].from == b {
        var c :| c in ins && h.conns[c].from == b;
        var j :| 0 <= j < |ins| && ins[j] == c;
      }
    }
    (a == b && SelfWeight(h, a) != 0.0) || i < |ins|
  }

  // ---------------------------------------------------------------- connect

  /** `weight || 1`: an absent or zero weight becomes 1. */
  function OrOne(w: Option<real>): (r: real)
    ensures r != 0.0
    ensures w.Some? && w.value != 0.0 ==> r == w.value
  {
    if w.Some? && w.value != 0.0 then w.value else 1.0
  }

  /**
    `a.connect(b, weight)` for a node target. Connecting a node to itself
    revives its self-connection (only when its weight is 0) and returns it;
    connecting to a node already projected to throws; otherwise one new
    connection is appended to `a`'s outgoing and `b`'s incoming list.
    `draw` is the random weight used when none is given.
   */
  function Connect(h: Heap, a: nat, b: nat, weight: Option<real>, draw: real): (r: Result<(Heap, seq<nat>)>)
    requires Wf(h) && a < |h.nodes| && b < |h.nodes|
    ensures r.Ok? ==> Wf(r.value.0) && r.value.0.nodes != [] && |r.value.0.nodes| == |h.nodes|
    ensures r.Err? ==> r.error == AlreadyProjecting
    ensures a == b ==> r.Ok?
    ensures a != b ==> (r.Err? <==> IsProjectingTo(h, a, b))
    ensures a == b ==>
      var s := h.nodes[a].selfConn;
      var (h2, cs) := r.value;
      && cs == [s] && h2.nodes == h.nodes && |h2.conns| == |h.conns|
      && (forall c | 0 <= c < |h.conns| && c != s :: h2.conns[c] == h.conns[c])
      && h2.conns[s] == h.conns[s].(weight := h2.conns[s].weight)
      && SelfWeight(h2, a) == (if SelfWeight(h, a) != 0.0 then SelfWeight(h, a) else OrOne(weight))
      && IsProjectingTo(h2, a, a)
    ensures a != b && r.Ok? ==>
      var k := |h.conns|;
      var (h2, cs) := r.value;
      && cs == [k]
      && h2.conns == h.conns + [Connections.New(a, b, weight, draw)]
      && h2.nodes[a] == h.nodes[a].(outConns := h.nodes[a].outConns + [k])
      && h2.nodes[b] == h.nodes[b].(inConns := h.nodes[b].inConns + [k])
      && (forall n | 0 <= n < |h.nodes| && n != a && n != b :: h2.nodes[n] == h.nodes[n])
      && IsProjectingTo(h2, a, b)
  {
    if a == b then
      var s := h.nodes[a].selfConn;
      assert NodeWf(h.nodes[a], |h.conns|) && ConnWf(h.conns[s], |h.nodes|);
      if h.conns[s].weight != 0.0 then Ok((h, [s]))
      else Ok((PutConn(h, s, h.conns[s].(weight := OrOne(weight))), [s]))
    else if IsProjectingTo(h, a, b) then Err(AlreadyProjecting)
    else
      var k := |h.conns|;
      var c := Connections.New(a, b, weight, draw);
      var h1 := Heap(h.nodes, h.conns + [c]);
      assert Wf(h1) by {
        forall i | 0 <= i < |h1.conns| ensures ConnWf(h1.conns[i], |h1.nodes|) {
          if i < |h.conns| { assert ConnWf(h.conns[i], |h.nodes|); }
        }
        forall i | 0 <= i < |h1.nodes| ensures NodeWf(h1.nodes[i], |h1.conns|) {
          assert NodeWf(h.nodes[i], |h.conns|);
        }
      }
      assert NodeWf(h1.nodes[a], |h1.conns|) && NodeWf(h1.nodes[b], |h1.conns|);
      var h2 := PutNode(h1, a, h1.nodes[a].(outConns := h1.nodes[a].outConns + [k]));
      var h3 := PutNode(h2, b, h2.nodes[b].(inConns := h2.nodes[b].inConns + [k]));
      assert k in h3.nodes[a].outConns && h3.conns[k].to == b;
      Ok((h3, [k]))
  }

  // ------------------------------------------------------------ gate, ungate

  function GateOne(h: Heap, g: nat, c: nat): (r: Heap)
    requires Wf(h) && g < |h.nodes| && c < |h.conns|
    ensures Wf(r) && |r.nodes| == |h.nodes| && |r.conns| == |h.conns|
    ensures r.nodes == h.nodes[g := h.nodes[g].(gated := h.nodes[g].gated + [c])]
    ensures r.conns == h.conns[c := h.conns[c].(gater := Some(g))]
  {
    assert NodeWf(h.nodes[g], |h.conns|) && ConnWf(h.conns[c], |h.nodes|);
    var h1 := PutNode(h, g, h.nodes[g].(gated := h.nodes[g].gated + [c]));
    PutConn(h1, c, h1.conns[c].(gater := Some(g)))
  }

  /**
    `g.gate(cs)`: each connection in turn is appended to `g`'s gated list
    and gets `g` as its gater. Nothing is checked.
   */
  function Gate(h: Heap, g: nat, cs: seq<nat>): (r: Heap)
    requires Wf(h) && g < |h.nodes| && IdsBelow(cs, |h.conns|)
    ensures Wf(r) && |r.nodes| == |h.nodes| && |r.conns| == |h.conns|
    ensures r.nodes[g] == h.nodes[g].(gated := h.nodes[g].gated + cs)
    ensures forall n | 0 <= n < |h.nodes| && n != g :: r.nodes[n] == h.nodes[n]
    ensures forall c | c in cs :: r.conns[c] == h.conns[c].(gater := Some(g))
    ensures forall c | 0 <= c < |h.conns| && c !in cs :: r.conns[c] == h.conns[c]
    decreases |cs|
  {
    if cs == [] then h
    else
      var h1 := GateOne(h, g, cs[0]);
      var r := Gate(h1, g, cs[1..]);
      assert h.nodes[g].gated + cs == h.nodes[g].gated + [cs[0]] + cs[1..];
      assert forall c | c in cs :: c == cs[0] || c in cs[1..];
      r
  }

  function UngateOne(h: Heap, g: nat, c: nat): (r: Heap)
    requires Wf(h) && g < |h.nodes| && c < |h.conns|
    ensures Wf(r) && |r.nodes| == |h.nodes| && |r.conns| == |h.conns|
    ensures r.nodes == h.nodes[g := h.nodes[g].(gated := SpliceOut(h.nodes[g].gated, c))]
    ensures r.conns == h.conns[c := h.conns[c].(gater := None, gain := 1.0)]
  {
    assert NodeWf(h.nodes[g], |h.conns|) && ConnWf(h.conns[c], |h.nodes|);
    var h1 := PutNode(h, g, h.nodes[g].(gated := SpliceOut(h.nodes[g].gated, c)));
    PutConn(h1, c, h1.conns[c].(gater := None, gain := 1.0))
  }

  /**
    `g.ungate(cs)`: from the last connection to the first, each one is
    spliced out of `g`'s gated list at its `indexOf` (so a connection `g`
    does not gate costs `g` its LAST gated entry), loses its gater and
    gets gain 1.
   */
  function Ungate(h: Heap, g: nat, cs: seq<nat>): (r: Heap)
    requires Wf(h) && g < |h.nodes| && IdsBelow(cs, |h.conns|)
    ensures Wf(r) && |r.nodes| == |h.nodes| && |r.conns| == |h.conns|
    ensures forall n | 0 <= n < |h.nodes| && n != g :: r.nodes[n] == h.nodes[n]
    ensures forall c | c in cs :: r.conns[c] == h.conns[c].(gater := None, gain := 1.0)
    ensures forall c | 0 <= c < |h.conns| && c !in cs :: r.conns[c] == h.conns[c]
    ensures forall c | c in r.nodes[g].gated :: c in h.nodes[g].gated
    decreases |cs|
  {
    if cs == [] then h
    else
      var last := cs[|cs| - 1];
      var h1 := UngateOne(h, g, last);
      assert forall c | c in cs :: c == last || c in cs[..|cs| - 1];
      Ungate(h1, g, cs[..|cs| - 1])
  }

  /** Ungating touches only the gater's gated list among its fields. */
  lemma {:induction false} UngateFrame(h: Heap, g: nat, cs: seq<nat>)
    requires Wf(h) && g < |h.nodes| && IdsBelow(cs, |h.conns|)
    ensures Ungate(h, g, cs).nodes[g] == h.nodes[g].(gated := Ungate(h, g, cs).nodes[g].gated)
    decreases |cs|
  {
    if cs != [] {
      var h1 := UngateOne(h, g, cs[|cs| - 1]);
      UngateFrame(h1, g, cs[..|cs| - 1]);
    }
  }

  // ------------------------------------------------------------- disconnect

  /**
    Takes the outgoing connection at position `i` of `a`, which ends at `b`,
    out of `a`'s outgoing list and out of `b`'s incoming list.
   */
  function Unlink(h: Heap, a: nat, b: nat, i: nat): (r: Heap)
    requires Wf(h) && a < |h.nodes| && b < |h.nodes| && a != b && i < |h.nodes[a].outConns|
    ensures Wf(r) && |r.nodes| == |h.nodes| && r.conns == h.conns
    ensures r.nodes[a] == h.nodes[a].(outConns := RemoveAt(h.nodes[a].outConns, i))
    ensures r.nodes[b] == h.nodes[b].(inConns := SpliceOut(h.nodes[b].inConns, h.nodes[a].outConns[i]))
    ensures forall n | 0 <= n < |h.nodes| && n != a && n != b :: r.nodes[n] == h.nodes[n]
  {
    assert NodeWf(h.nodes[a], |h.conns|) && NodeWf(h.nodes[b], |h.conns|);
    var outs := h.nodes[a].outConns;
    var c := outs[i];
    var h1 := PutNode(h, a, h.nodes[a].(outConns := RemoveAt(outs, i)));
    PutNode(h1, b, h1.nodes[b].(inConns := SpliceOut(h1.nodes[b].inConns, c)))
  }

  /**
    One direction of `a.disconnect(b)` for distinct nodes: the first
    outgoing connection of `a` that ends at `b` leaves `a`'s outgoing list
    and `b`'s incoming list, and is ungated by its gater if it has one.
   */
  function DisconnectOne(h: Heap, a: nat, b: nat): (r: Heap)
    requires Wf(h) && a < |h.nodes| && b < |h.nodes| && a != b
    ensures Wf(r) && |r.nodes| == |h.nodes| && |r.conns| == |h.conns|
    ensures
      var outs := h.nodes[a].outConns;
      var i := FirstTo(h, outs, b);
      && (i == |outs| ==> r == h)
      && (i < |outs| ==>
            var c := outs[i];
            && r.nodes[a].outConns == RemoveAt(outs, i)
            && r.nodes[b].inConns == SpliceOut(h.nodes[b].inConns, c)
            && (forall d | 0 <= d < |h.conns| && d != c :: r.conns[d] == h.conns[d])
            && (h.conns[c].gater.None? ==> r == Unlink(h, a, b, i))
            && (h.conns[c].gater.Some? ==> r == UngateOne(Unlink(h, a, b, i), h.conns[c].gater.value, c)))
  {
    assert NodeWf(h.nodes[a], |h.conns|);
    var outs := h.nodes[a].outConns;
    var i := FirstTo(h, outs, b);
    if i == |outs| then h
    else
      var c := outs[i];
      assert ConnWf(h.conns[c], |h.nodes|);
      var h1 := Unlink(h, a, b, i);
      match h.conns[c].gater
      case None => h1
      case Some(g) =>
        var r := UngateOne(h1, g, c);
        assert r.nodes[a].outConns == RemoveAt(outs, i) by {
          if g == a { assert r.nodes[a].outConns == h1.nodes[a].outConns; }
        }
        assert r.nodes[b].inConns == SpliceOut(h.nodes[b].inConns, c) by {
          if g == b { assert r.nodes[b].inConns == h1.nodes[b].inConns; }
        }
        r
  }

  /**
    `a.disconnect(b, twosided)`: a self-disconnect only zeroes the
    self-weight (and ignores `twosided`); otherwise one direction is removed,
    and with `twosided` also the reverse one.
   */
  function Disconnect(h: Heap, a: nat, b: nat, twosided: bool): (r: Heap)
    requires Wf(h) && a < |h.nodes| && b < |h.nodes|
    ensures Wf(r) && |r.nodes| == |h.nodes| && |r.conns| == |h.conns|
    ensures a == b ==>
      && r.nodes == h.nodes
      && r.conns == h.conns[h.nodes[a].selfConn := h.conns[h.nodes[a].selfConn].(weight := 0.0)]
      && SelfWeight(r, a) == 0.0
    ensures a != b && !twosided ==> r == DisconnectOne(h, a, b)
    ensures a != b && twosided ==> r == DisconnectOne(DisconnectOne(h, a, b), b, a)
  {
    if a == b then
      var s := h.nodes[a].selfConn;
      assert NodeWf(h.nodes[a], |h.conns|) && ConnWf(h.conns[s], |h.nodes|);
      PutConn(h, s, h.conns[s].(weight := 0.0))
    else
      var h1 := DisconnectOne(h, a, b);
      if twosided then DisconnectOne(h1, b, a) else h1
  }

  // ------------------------------------------------------------------ mutate

  /**
    The MOD_ACTIVATION step: from the position of the current function in
    `allowed`, move forward by 1 + a pick below |allowed| - 1, cyclically.
   */
  function NextSquash(allowed: seq<Squash>, cur: Squash, u: Unit): (s: Squash)
    requires |allowed| > 0
    ensures s in allowed
    ensures cur in allowed && |allowed| >= 2 && Distinct(allowed) ==> s != cur
  {
    var len := |allowed|;
    var i := IndexOf(allowed, cur);
    var k := Pick(u, len - 1);
    ModOnce(i + k + 1, len);
    allowed[(i + k + 1) % len]
  }

  /**
    `node.mutate(method)`: no method throws, a method whose name is not a
    key of the mutation table throws, MOD_ACTIVATION moves to another entry
    of `allowed` and MOD_BIAS shifts the bias by a uniform amount in
    [min, max); every other known method leaves the node alone. `u` is the
    random draw.
   */
  function Mutate(h: Heap, n: nat, m: Option<Mutation>, u: Unit): (r: Result<Heap>)
    requires Wf(h) && n < |h.nodes|
    requires m.Some? && m.value.ModActivation? ==> |m.value.allowed| > 0
    ensures m.None? ==> r == Err(NoMethod)
    ensures m.Some? && m.value.SubConn? ==> r == Err(UnknownMethod)
    ensures m.Some? && !m.value.SubConn? ==> r.Ok? && Wf(r.value)
    ensures r.Ok? ==> r.value.conns == h.conns && |r.value.nodes| == |h.nodes|
    ensures r.Ok? ==> SameShape(h, r.value)
    ensures r.Ok? ==> forall k | 0 <= k < |h.nodes| && k != n :: r.value.nodes[k] == h.nodes[k]
    ensures m.Some? && m.value.ModActivation? ==>
      var allowed := m.value.allowed;
      var x := r.value.nodes[n];
      && x == h.nodes[n].(squash := x.squash)
      && x.squash in allowed
      && (h.nodes[n].squash in allowed && |allowed| >= 2 && Distinct(allowed) ==> x.squash != h.nodes[n].squash)
    ensures m.Some? && m.value.ModBias? ==>
      var x := r.value.nodes[n];
      && x == h.nodes[n].(bias := x.bias)
      && (m.value.min < m.value.max ==> m.value.min <= x.bias - h.nodes[n].bias < m.value.max)
    ensures m.Some? && !m.value.ModActivation? && !m.value.ModBias? && !m.value.SubConn? ==> r == Ok(h)
  {
    if m.None? then Err(NoMethod)
    else
      KnownExactlyWhenNotSubConn(m.value);
      if !Known(m.value) then Err(UnknownMethod)
      else
        var x := h.nodes[n];
        assert NodeWf(x, |h.conns|);
        match m.value
        case ModActivation(_, allowed) => Ok(PutNode(h, n, x.(squash := NextSquash(allowed, x.squash, u))))
        case ModBias(lo, hi) => Ok(PutNode(h, n, x.(bias := x.bias + Uniform(u, lo, hi))))
        case _ => Ok(h)
  }

  // ------------------------------------------------------------------- clear

  /** Zeroes the eligibility and empties the extended trace of each listed connection. */
  function ResetTraces(h: Heap, cs: seq<nat>): (r: Heap)
    requires Wf(h) && IdsBelow(cs, |h.conns|)
    ensures Wf(r) && r.nodes == h.nodes && |r.conns| == |h.conns|
    ensures SameShape(h, r)
    ensures forall c | c in cs :: r.conns[c] == h.conns[c].(eligibility := 0.0, xtraceNodes := [], xtraceValues := [])
    ensures forall c | 0 <= c < |h.conns| && c !in cs :: r.conns[c] == h.conns[c]
    decreases |cs|
  {
    if cs == [] then h
    else
      var c := cs[0];
      assert ConnWf(h.conns[c], |h.nodes|);
      var h1 := PutConn(h, c, h.conns[c].(eligibility := 0.0, xtraceNodes := [], xtraceValues := []));
      assert forall d | d in cs :: d == c || d in cs[1..];
      ResetTraces(h1, cs[1..])
  }

  /** Sets the gain of each listed connection to `v`. */
  function SetGains(h: Heap, cs: seq<nat>, v: real): (r: Heap)
    requires Wf(h) && IdsBelow(cs, |h.conns|)
    ensures Wf(r) && r.nodes == h.nodes && |r.conns| == |h.conns|
    ensures SameShape(h, r)
    ensures forall c | c in cs :: r.conns[c] == h.conns[c].(gain := v)
    ensures forall c | 0 <= c < |h.conns| && c !in cs :: r.conns[c] == h.conns[c]
    decreases |cs|
  {
    if cs == [] then h
    else
      var c := cs[0];
      assert ConnWf(h.conns[c], |h.nodes|);
      var h1 := PutConn(h, c, h.conns[c].(gain := v));
      assert forall d | d in cs :: d == c || d in cs[1..];
      SetGains(h1, cs[1..], v)
  }

  /**
    `node.clear()`: incoming traces are reset, gated connections get gain
    0, and the node's errors, old state, state and activation become 0.
   */
  function Clear(h: Heap, n: nat): (r: Heap)
    requires Wf(h) && n < |h.nodes|
    ensures Wf(r) && |r.nodes| == |h.nodes| && |r.conns| == |h.conns|
    ensures SameShape(h, r)
    ensures forall k | 0 <= k < |h.nodes| && k != n :: r.nodes[k] == h.nodes[k]
    ensures r.nodes[n] == h.nodes[n].(responsibility := 0.0, projected := 0.0, gatedError := 0.0,
                                      oldState := 0.0, state := 0.0, activation := 0.0)
    ensures forall c | c in h.nodes[n].inConns && c !in h.nodes[n].gated ::
              r.conns[c] == h.conns[c].(eligibility := 0.0, xtraceNodes := [], xtraceValues := [])
    ensures forall c | c in h.nodes[n].gated :: r.conns[c].gain == 0.0
    ensures forall c | c in h.nodes[n].inConns && c in h.nodes[n].gated ::
              r.conns[c] == h.conns[c].(eligibility := 0.0, xtraceNodes := [], xtraceValues := [], gain := 0.0)
    ensures forall c | 0 <= c < |h.conns| && c !in h.nodes[n].inConns && c !in h.nodes[n].gated ::
              r.conns[c] == h.conns[c]
  {
    var x := h.nodes[n];
    assert NodeWf(x, |h.conns|);
    var h1 := ResetTraces(h, x.inConns);
    var h2 := SetGains(h1, x.gated, 0.0);
    PutNode(h2, n, x.(responsibility := 0.0, projected := 0.0, gatedError := 0.0,
                      oldState := 0.0, state := 0.0, activation := 0.0))
  }

  // -------------------------------------------------------------- activation

  /** Σ from.activation · weight · gain over the listed incoming connections. */
  function InputSum(h: Heap, ins: seq<nat>): real
    requires Wf(h) && IdsBelow(ins, |h.conns|)
    decreases |ins|
  {
    if ins == [] then 0.0
    else
      var c := h.conns[ins[0]];
      assert ConnWf(c, |h.nodes|);
      h.nodes[c.from].activation * c.weight * c.gain + InputSum(h, ins[1..])
  }

  /** The state a node computes: self-recurrence, bias, and the weighted inputs. */
  function NextState(h: Heap, n: nat): real
    requires Wf(h) && n < |h.nodes|
  {
    var x := h.nodes[n];
    assert NodeWf(x, |h.conns|);
    var s := h.conns[x.selfConn];
    s.gain * s.weight * x.state + x.bias + InputSum(h, x.inConns)
  }

  /**
    `node.noTraceActivate(input)`. A given input becomes the activation;
    otherwise the state is recomputed, squashed (`squash` evaluates a
    registry entry), and becomes the gain of every connection the node
    gates. Returns the new heap and the activation.
   */
  function NoTraceActivate(h: Heap, n: nat, input: Option<real>, squash: (Squash, real) -> real): (r: (Heap, real))
    requires Wf(h) && n < |h.nodes|
    ensures Wf(r.0) && |r.0.nodes| == |h.nodes| && |r.0.conns| == |h.conns|
    ensures SameShape(h, r.0)
    ensures r.0.nodes[n].activation == r.1
    ensures input.Some? ==> r.1 == input.value && r.0 == h.(nodes := h.nodes[n := h.nodes[n].(activation := r.1)])
    ensures input.None? ==>
      && r.0.nodes[n].state == NextState(h, n)
      && r.1 == squash(h.nodes[n].squash, NextState(h, n))
      && (forall c | c in h.nodes[n].gated :: r.0.conns[c].gain == r.1)
      && (forall c | 0 <= c < |h.conns| && c !in h.nodes[n].gated :: r.0.conns[c] == h.conns[c])
    ensures forall k | 0 <= k < |h.nodes| && k != n :: r.0.nodes[k] == h.nodes[k]
  {
    var x := h.nodes[n];
    assert NodeWf(x, |h.conns|);
    if input.Some? then
      (PutNode(h, n, x.(activation := input.value)), input.value)
    else
      var s := NextState(h, n);
      var a := squash(x.squash, s);
      var h1 := PutNode(h, n, x.(state := s, activation := a));
      (SetGains(h1, x.gated, a), a)
  }

  /**
    The part of `node.activate(input)` the model keeps: as
    NoTraceActivate, but the old state is remembered, the squashed state
    is multiplied by the dropout mask and the derivative is recorded. The
    eligibility and extended-trace updates are not modelled.
   */
  function Activate(h: Heap, n: nat, input: Option<real>, squash: (Squash, real) -> real,
                    derive: (Squash, real) -> real): (r: (Heap, real))
    requires Wf(h) && n < |h.nodes|
    ensures Wf(r.0) && |r.0.nodes| == |h.nodes| && |r.0.conns| == |h.conns|
    ensures SameShape(h, r.0)
    ensures r.0.nodes[n].activation == r.1
    ensures input.Some? ==> r.1 == input.value && r.0 == h.(nodes := h.nodes[n := h.nodes[n].(activation := r.1)])
    ensures input.None? ==>
      var x := h.nodes[n];
      && r.0.nodes[n].oldState == x.state
      && r.0.nodes[n].state == NextState(h, n)
      && r.1 == squash(x.squash, NextState(h, n)) * x.mask
      && r.0.nodes[n].derivative == Some(derive(x.squash, NextState(h, n)))
      && (forall c | c in x.gated :: r.0.conns[c].gain == r.1)
    ensures forall k | 0 <= k < |h.nodes| && k != n :: r.0.nodes[k] == h.nodes[k]
  {
    var x := h.nodes[n];
    assert NodeWf(x, |h.conns|);
    if input.Some? then
      (PutNode(h, n, x.(activation := input.value)), input.value)
    else
      var s := NextState(h, n);
      var a := squash(x.squash, s) * x.mask;
      var h1 := PutNode(h, n, x.(oldState := x.state, state := s, activation := a,
                                 derivative := Some(derive(x.squash, s))));
      (SetGains(h1, x.gated, a), a)
  }

  // ------------------------------------------------------------- propagation

  /** Σ to.responsibility · weight · gain over the listed outgoing connections. */
  function ProjectedSum(h: Heap, outs: seq<nat>): real
    requires Wf(h) && IdsBelow(outs, |h.conns|)
    decreases |outs|
  {
    if outs == [] then 0.0
    else
      var c := h.conns[outs[0]];
      assert ConnWf(c, |h.nodes|);
      h.nodes[c.to].responsibility * c.weight * c.gain + ProjectedSum(h, outs[1..])
  }

  /**
    The error a gater `n` receives through the connections it gates: the
    target's responsibility times the influence, where the influence is the
    weighted source activation plus the target's old state when `n` also
    gates the target's self-connection.
   */
  function GatedSum(h: Heap, n: nat, gs: seq<nat>): real
    requires Wf(h) && IdsBelow(gs, |h.conns|)
    decreases |gs|
  {
    if gs == [] then 0.0
    else
      var c := h.conns[gs[0]];
      assert ConnWf(c, |h.nodes|);
      var t := h.nodes[c.to];
      assert NodeWf(t, |h.conns|);
      var influence := (if h.conns[t.selfConn].gater == Some(n) then t.oldState else 0.0)
                       + c.weight * h.nodes[c.from].activation;
      t.responsibility * influence + GatedSum(h, n, gs[1..])
  }

  /** Σ responsibility · value over the extended trace of a connection. */
  function TraceSum(h: Heap, xs: seq<nat>, vs: seq<real>): real
    requires Wf(h) && |xs| == |vs| && IdsBelow(xs, |h.nodes|)
    decreases |xs|
  {
    if xs == [] then 0.0
    else h.nodes[xs[0]].responsibility * vs[0] + TraceSum(h, xs[1..], vs[1..])
  }

  /**
    The weight step of one incoming connection of `n`: the delta is added
    to the accumulator and, when `update` is set, the momentum term joins
    it, the whole accumulator is added to the weight, remembered as the
    previous delta, and cleared.
   */
  function PropagateIn(h: Heap, n: nat, c: nat, rate: real, momentum: real, update: bool): (r: Heap)
    requires Wf(h) && n < |h.nodes| && c < |h.conns|
    ensures Wf(r) && r.nodes == h.nodes && |r.conns| == |h.conns|
    ensures SameShape(h, r)
    ensures forall d | 0 <= d < |h.conns| && d != c :: r.conns[d] == h.conns[d]
    ensures var (was, now) := (h.conns[c], r.conns[c]);
      && now == was.(weight := now.weight, previousDeltaWeight := now.previousDeltaWeight,
                     totalDeltaWeight := now.totalDeltaWeight)
      && (update ==> now.totalDeltaWeight == 0.0 && now.weight - was.weight == now.previousDeltaWeight)
      && (!update ==> now.weight == was.weight && now.previousDeltaWeight == was.previousDeltaWeight)
  {
    var x := h.nodes[n];
    var k := h.conns[c];
    assert ConnWf(k, |h.nodes|);
    var gradient := x.projected * k.eligibility + TraceSum(h, k.xtraceNodes, k.xtraceValues);
    var total := k.totalDeltaWeight + rate * gradient * x.mask;
    if update then
      var t := total + momentum * k.previousDeltaWeight;
      PutConn(h, c, k.(weight := k.weight + t, previousDeltaWeight := t, totalDeltaWeight := 0.0))
    else
      PutConn(h, c, k.(totalDeltaWeight := total))
  }

  /** PropagateIn over the incoming connections, in order. */
  function PropagateIns(h: Heap, n: nat, ins: seq<nat>, rate: real, momentum: real, update: bool): (r: Heap)
    requires Wf(h) && n < |h.nodes| && IdsBelow(ins, |h.conns|)
    ensures Wf(r) && r.nodes == h.nodes && |r.conns| == |h.conns|
    ensures SameShape(h, r)
    ensures forall d | 0 <= d < |h.conns| && d !in ins :: r.conns[d] == h.conns[d]
    ensures update ==> forall d | d in ins :: r.conns[d].totalDeltaWeight == 0.0
    ensures Distinct(ins) ==> forall d | d in ins ::
      && (update ==> r.conns[d].weight - h.conns[d].weight == r.conns[d].previousDeltaWeight)
      && (!update ==> r.conns[d].weight == h.conns[d].weight)
    decreases |ins|
  {
    if ins == [] then h
    else
      var h1 := PropagateIn(h, n, ins[0], rate, momentum, update);
      var r := PropagateIns(h1, n, ins[1..], rate, momentum, update);
      assert forall d | d in ins :: d == ins[0] || d in ins[1..];
      assert Distinct(ins) ==> ins[0] !in ins[1..] && Distinct(ins[1..]) by {
        if Distinct(ins) {
          forall j | 0 <= j < |ins[1..]| ensures ins[1..][j] != ins[0] { assert ins[j + 1] != ins[0]; }
          forall i, j | 0 <= i < j < |ins[1..]| ensures ins[1..][i] != ins[1..][j] {
            assert ins[i + 1] != ins[j + 1];
          }
        }
      }
      r
  }

  /** `rate || 0.3`. */
  function RateOr(rate: Option<real>): real {
    if rate.Some? && rate.value != 0.0 then rate.value else 0.3
  }

  /** `momentum || 0`. */
  function MomentumOr(momentum: Option<real>): real {
    if momentum.Some? then momentum.value else 0.0
  }

  /** The node after its error fields are recomputed, before any weight moves. */
  function WithErrors(h: Heap, n: nat, target: Option<real>): (x: Node)
    requires Wf(h) && n < |h.nodes|
    requires h.nodes[n].kind == Output ==> target.Some?
    requires h.nodes[n].kind != Output ==> h.nodes[n].derivative.Some?
    ensures NodeWf(x, |h.conns|)
    ensures h.nodes[n].kind == Output ==>
      x == h.nodes[n].(responsibility := target.value - h.nodes[n].activation,
                       projected := target.value - h.nodes[n].activation)
    ensures h.nodes[n].kind != Output ==>
      && x == h.nodes[n].(responsibility := x.responsibility, projected := x.projected, gatedError := x.gatedError)
      && x.responsibility == x.projected + x.gatedError
  {
    var x := h.nodes[n];
    assert NodeWf(x, |h.conns|);
    if x.kind == Output then
      var e := target.value - x.activation;
      x.(responsibility := e, projected := e)
    else
      var d := x.derivative.value;
      var p := d * ProjectedSum(h, x.outConns);
      var g := d * GatedSum(h, n, x.gated);
      x.(projected := p, gatedError := g, responsibility := p + g)
  }

  /**
    The bias step: the delta joins the accumulator and, when `update` is
    set, the momentum term too; the accumulator then moves the bias, is
    remembered as the previous delta, and is cleared.
   */
  function BiasStep(x: Node, rate: real, momentum: real, update: bool): (y: Node)
    ensures y == x.(bias := y.bias, previousDeltaBias := y.previousDeltaBias, totalDeltaBias := y.totalDeltaBias)
    ensures update ==> y.totalDeltaBias == 0.0 && y.bias - x.bias == y.previousDeltaBias
    ensures !update ==> y.bias == x.bias && y.previousDeltaBias == x.previousDeltaBias
  {
    var total := x.totalDeltaBias + rate * x.responsibility;
    if update then
      var t := total + momentum * x.previousDeltaBias;
      x.(bias := x.bias + t, previousDeltaBias := t, totalDeltaBias := 0.0)
    else
      x.(totalDeltaBias := total)
  }

  /**
    The weight steps on every incoming connection of `n`, then its bias
    step, for `n` holding the recomputed error values of `x`.
   */
  function Learn(h: Heap, n: nat, x: Node, rate: real, momentum: real, update: bool): (r: Heap)
    requires Wf(h) && n < |h.nodes| && NodeWf(x, |h.conns|)
    requires x == h.nodes[n].(responsibility := x.responsibility, projected := x.projected, gatedError := x.gatedError)
    ensures Wf(r) && SameShape(h, r)
    ensures forall k | 0 <= k < |h.nodes| && k != n :: r.nodes[k] == h.nodes[k]
    ensures forall d | 0 <= d < |h.conns| && d !in x.inConns :: r.conns[d] == h.conns[d]
    ensures r.nodes[n] == BiasStep(x, rate, momentum, update)
    ensures update ==> forall d | d in x.inConns :: r.conns[d].totalDeltaWeight == 0.0
    ensures update && Distinct(x.inConns) ==>
      forall d | d in x.inConns :: r.conns[d].weight - h.conns[d].weight == r.conns[d].previousDeltaWeight
  {
    var h1 := PutNode(h, n, x);
    var h2 := PropagateIns(h1, n, x.inConns, rate, momentum, update);
    PutNode(h2, n, BiasStep(x, rate, momentum, update))
  }

  /**
    `node.propagate(rate, momentum, update, target)`: the node's errors are
    recomputed; a `constant` node stops there; every other node takes its
    weight step on each incoming connection and the matching bias step.
    The source reads `target` only for output nodes and the derivative
    only for the others, so those are required to be present.
   */
  function Propagate(h: Heap, n: nat, rate: Option<real>, momentum: Option<real>, update: bool,
                     target: Option<real>): (r: Heap)
    requires Wf(h) && n < |h.nodes|
    requires h.nodes[n].kind == Output ==> target.Some?
    requires h.nodes[n].kind != Output ==> h.nodes[n].derivative.Some?
    ensures Wf(r) && SameShape(h, r)
    ensures forall k | 0 <= k < |h.nodes| && k != n :: r.nodes[k] == h.nodes[k]
    ensures forall d | 0 <= d < |h.conns| && d !in h.nodes[n].inConns :: r.conns[d] == h.conns[d]
    ensures h.nodes[n].kind == Output ==>
      r.nodes[n].responsibility == r.nodes[n].projected == target.value - h.nodes[n].activation
    ensures h.nodes[n].kind == Constant ==>
      r.conns == h.conns && r.nodes[n] == WithErrors(h, n, target)
    ensures !update ==> r.nodes[n].bias == h.nodes[n].bias
  {
    var rt := RateOr(rate);
    var mo := MomentumOr(momentum);
    var x := WithErrors(h, n, target);
    if x.kind == Constant then PutNode(h, n, x) else Learn(h, n, x, rt, mo, update)
  }

  /**
    `node.propagate` on any node. Where the source reads an undefined
    target (an output node) or an undefined derivative (any other node
    never activated) and goes on with NaN, the result is `NotANumber`.
   */
  function TryPropagate(h: Heap, n: nat, rate: Option<real>, momentum: Option<real>, update: bool,
                        target: Option<real>): (r: Result<Heap>)
    requires Wf(h) && n < |h.nodes|
    ensures r.Err? <==> (h.nodes[n].kind == Output && target.None?)
                        || (h.nodes[n].kind != Output && h.nodes[n].derivative.None?)
    ensures r.Err? ==> r.error == NotANumber
    ensures r.Ok? ==> r.value == Propagate(h, n, rate, momentum, update, target)
  {
    if h.nodes[n].kind == Output && target.None? then Err(NotANumber)
    else if h.nodes[n].kind != Output && h.nodes[n].derivative.None? then Err(NotANumber)
    else Ok(Propagate(h, n, rate, momentum, update, target))
  }

  /**
    With `update` set, a non-constant node's accumulated deltas are spent:
    each incoming weight and the bias move by exactly the delta recorded
    as the previous one, and the accumulators are cleared.
   */
  lemma PropagateUpdates(h: Heap, n: nat, rate: Option<real>, momentum: Option<real>, target: Option<real>)
    requires Wf(h) && n < |h.nodes|
    requires h.nodes[n].kind == Output ==> target.Some?
    requires h.nodes[n].kind != Output ==> h.nodes[n].derivative.Some?
    requires h.nodes[n].kind != Constant
    ensures var r := Propagate(h, n, rate, momentum, true, target);
      && (forall d | d in h.nodes[n].inConns :: r.conns[d].totalDeltaWeight == 0.0)
      && r.nodes[n].totalDeltaBias == 0.0
      && r.nodes[n].bias - h.nodes[n].bias == r.nodes[n].previousDeltaBias
      && (Distinct(h.nodes[n].inConns) ==>
            forall d | d in h.nodes[n].inConns ::
              r.conns[d].weight - h.conns[d].weight == r.conns[d].previousDeltaWeight)
  {
    var x := WithErrors(h, n, target);
    assert x.inConns == h.nodes[n].inConns;
  }

  // ----------------------------------------------------------- serialisation

  /** `node.toJSON()`. */
  datatype NodeJson = NodeJson(bias: real, kind: Kind, squash: Squash, mask: real)

  function ToJson(x: Node): (j: NodeJson)
    ensures j.bias == x.bias && j.kind == x.kind && j.squash == x.squash && j.mask == x.mask
  {
    NodeJson(x.bias, x.kind, x.squash, x.mask)
  }

  /** `Node.fromJSON(json)`: a fresh node whose bias, type, mask and squash are taken from `j`. */
  function FromJson(h: Heap, j: NodeJson, draw: real): (r: (Heap, nat))
    requires Wf(h)
    ensures Wf(r.0) && r.1 == |h.nodes| && |r.0.nodes| == |h.nodes| + 1
    ensures r.0.nodes[..|h.nodes|] == h.nodes && |r.0.conns| == |h.conns| + 1
    ensures ToJson(r.0.nodes[r.1]) == j
    ensures r.0.nodes[r.1].inConns == [] && r.0.nodes[r.1].outConns == [] && r.0.nodes[r.1].gated == []
  {
    var (h1, id) := NewNode(h, None, draw);
    var x := h1.nodes[id];
    var h2 := PutNode(h1, id, x.(bias := j.bias, kind := j.kind, mask := j.mask, squash := j.squash));
    assert h2.nodes[..|h.nodes|] == h1.nodes[..|h.nodes|];
    (h2, id)
  }
}
