/**
  The network primitives keep the node-level links: whatever
  `network.connect`, `gate`, `ungate` and `disconnect` return, the arena is
  still `Linked` when it was before.
 */
module NetworkLinks {
  import opened Base
  import opened Nodes
  import opened Links
  import opened Networks

  lemma ConnectKeepsLinked(h: Heap, N: Network, a: nat, b: nat, weight: Option<real>, draw: real)
    requires Linked(h) && a < |h.nodes| && b < |h.nodes|
    requires Networks.Connect(h, N, a, b, weight, draw).Ok?
    ensures Linked(Networks.Connect(h, N, a, b, weight, draw).value.0)
  {
    if a == b {
      ConnectSelfLinked(h, a, weight, draw);
    } else {
      ConnectLinked(h, a, b, weight, draw);
    }
  }

  lemma GateKeepsLinked(h: Heap, N: Network, g: nat, c: nat)
    requires Linked(h) && g < |h.nodes| && c < |h.conns|
    requires Networks.Gate(h, N, g, c).Ok?
    ensures Linked(Networks.Gate(h, N, g, c).value.0)
  {
    if g in N.nodes && h.conns[c].gater.None? {
      GateLinked(h, g, [c]);
    }
  }

  lemma UngateKeepsLinked(h: Heap, N: Network, c: nat)
    requires Linked(h) && c < |h.conns|
    requires Networks.Ungate(h, N, c).Ok?
    ensures Linked(Networks.Ungate(h, N, c).value.0)
  {
    var g := h.conns[c].gater.value;
    assert ConnWf(h.conns[c], |h.nodes|);
    UngateLinked(h, g, [c]);
  }

  lemma DisconnectKeepsLinked(h: Heap, N: Network, a: nat, b: nat)
    requires Linked(h) && a < |h.nodes| && b < |h.nodes|
    requires IdsBelow(N.connections, |h.conns|) && IdsBelow(N.selfconns, |h.conns|)
    requires Networks.Disconnect(h, N, a, b).Ok?
    ensures Linked(Networks.Disconnect(h, N, a, b).value.0)
  {
    var list := if a == b then N.selfconns else N.connections;
    var i := FindEdge(h, list, a, b);
    if i < |list| && h.conns[list[i]].gater.Some? {
      UngateKeepsLinked(h, N, list[i]);
      var h1 := Networks.Ungate(h, N, list[i]).value.0;
      DisconnectLinked(h1, a, b, false);
    } else {
      DisconnectLinked(h, a, b, false);
    }
  }

  // ----------------------------------------------------------- projections

  /** Every projection of `h` is still there in `h2`. */
  predicate KeepsProjections(h: Heap, h2: Heap)
    requires Wf(h) && Wf(h2) && |h2.nodes| == |h.nodes|
  {
    forall a, b | 0 <= a < |h.nodes| && 0 <= b < |h.nodes| && IsProjectingTo(h, a, b) :: IsProjectingTo(h2, a, b)
  }

  /** Every projection of `h` is still there in `h2`, but possibly that of `n` onto itself. */
  predicate KeepsProjectionsBut(h: Heap, h2: Heap, n: nat)
    requires Wf(h) && Wf(h2) && |h2.nodes| == |h.nodes|
  {
    forall a, b | 0 <= a < |h.nodes| && 0 <= b < |h.nodes| && (a != n || b != n) && IsProjectingTo(h, a, b) ::
      IsProjectingTo(h2, a, b)
  }

  /**
    What projections rest on: outgoing lists that only grow, connection
    targets that stay, and live self-connections (those of nodes other
    than `skip`) that stay live.
   */
  predicate WiringKept(h: Heap, h2: Heap, skip: Option<nat>)
    requires Wf(h) && Wf(h2)
  {
    && |h2.nodes| == |h.nodes| && |h.conns| <= |h2.conns|
    && (forall a, c | 0 <= a < |h.nodes| && c in h.nodes[a].outConns :: c in h2.nodes[a].outConns)
    && (forall c | 0 <= c < |h.conns| :: h2.conns[c].to == h.conns[c].to)
    && (forall a | 0 <= a < |h.nodes| && skip != Some(a) && SelfWeight(h, a) != 0.0 :: SelfWeight(h2, a) != 0.0)
  }

  lemma WiringKeepsProjections(h: Heap, h2: Heap, skip: Option<nat>)
    requires Wf(h) && Wf(h2) && WiringKept(h, h2, skip)
    ensures skip.None? ==> KeepsProjections(h, h2)
    ensures skip.Some? ==> KeepsProjectionsBut(h, h2, skip.value)
  {
    forall a, b | 0 <= a < |h.nodes| && 0 <= b < |h.nodes| && !(skip == Some(a) && a == b) && IsProjectingTo(h, a, b)
      ensures IsProjectingTo(h2, a, b)
    {
      if !(a == b && SelfWeight(h, a) != 0.0) {
        var c :| c in h.nodes[a].outConns && h.conns[c].to == b;
        assert NodeWf(h.nodes[a], |h.conns|);
        assert c in h2.nodes[a].outConns && h2.conns[c].to == b;
      }
    }
  }

  lemma GateKeepsWiring(h: Heap, N: Network, g: nat, c: nat)
    requires Wf(h) && g < |h.nodes| && c < |h.conns|
    requires Networks.Gate(h, N, g, c).Ok?
    ensures WiringKept(h, Networks.Gate(h, N, g, c).value.0, None)
  {
  }

  lemma UngateKeepsWiring(h: Heap, N: Network, c: nat)
    requires Wf(h) && c < |h.conns|
    requires Networks.Ungate(h, N, c).Ok?
    ensures WiringKept(h, Networks.Ungate(h, N, c).value.0, None)
  {
    var g := h.conns[c].gater.value;
    assert ConnWf(h.conns[c], |h.nodes|);
    UngateFrame(h, g, [c]);
  }

  /** Connecting never loses a projection; the self case needs distinct self-connections, which linkage gives. */
  lemma ConnectKeepsWiring(h: Heap, N: Network, a: nat, b: nat, weight: Option<real>, draw: real)
    requires Linked(h) && a < |h.nodes| && b < |h.nodes|
    requires Networks.Connect(h, N, a, b, weight, draw).Ok?
    ensures WiringKept(h, Networks.Connect(h, N, a, b, weight, draw).value.0, None)
  {
    var h2 := Networks.Connect(h, N, a, b, weight, draw).value.0;
    if a == b {
      forall m | 0 <= m < |h.nodes| && SelfWeight(h, m) != 0.0
        ensures SelfWeight(h2, m) != 0.0
      {
        assert NodeLinked(h, m) && NodeLinked(h, a);
      }
    }
  }

  /** `ungate` changes no self-connection and no weight. */
  lemma UngateKeepsWeights(h: Heap, N: Network, c: nat)
    requires Wf(h) && c < |h.conns|
    requires Networks.Ungate(h, N, c).Ok?
    ensures var h1 := Networks.Ungate(h, N, c).value.0;
      && (forall m | 0 <= m < |h.nodes| :: h1.nodes[m].selfConn == h.nodes[m].selfConn)
      && (forall d | 0 <= d < |h.conns| :: h1.conns[d].weight == h.conns[d].weight && h1.conns[d].from == h.conns[d].from)
  {
    var g := h.conns[c].gater.value;
    assert ConnWf(h.conns[c], |h.nodes|);
    UngateFrame(h, g, [c]);
  }

  /** Dropping a node's self-connection loses no projection but that of the node onto itself. */
  lemma DisconnectSelfKeepsWiring(h: Heap, N: Network, n: nat)
    requires Linked(h) && n < |h.nodes|
    requires IdsBelow(N.connections, |h.conns|) && IdsBelow(N.selfconns, |h.conns|)
    requires Networks.Disconnect(h, N, n, n).Ok?
    ensures WiringKept(h, Networks.Disconnect(h, N, n, n).value.0, Some(n))
  {
    var h2 := Networks.Disconnect(h, N, n, n).value.0;
    var i := FindEdge(h, N.selfconns, n, n);
    var gated := i < |N.selfconns| && h.conns[N.selfconns[i]].gater.Some?;
    var h1 := if gated then Networks.Ungate(h, N, N.selfconns[i]).value.0 else h;
    if gated {
      UngateKeepsWiring(h, N, N.selfconns[i]);
      UngateKeepsWeights(h, N, N.selfconns[i]);
    }
    assert WiringKept(h, h1, None);
    assert h2 == Nodes.Disconnect(h1, n, n, false);
    var sn := h.nodes[n].selfConn;
    assert NodeLinked(h, n);
    forall m | 0 <= m < |h.nodes| && m != n && SelfWeight(h, m) != 0.0
      ensures SelfWeight(h2, m) != 0.0
    {
      assert NodeLinked(h, m);
      var sm := h.nodes[m].selfConn;
      assert h1.nodes[m].selfConn == sm && h1.conns[sm].weight == h.conns[sm].weight;
      assert h1.conns[sm].from == m && h1.conns[sn].from == n;
      assert h2.conns[sm] == h1.conns[sm];
    }
  }
}
