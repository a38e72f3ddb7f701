/**
  The agreement the library keeps between a node's edge lists and the
  connections they hold, and the proof that the node primitives keep it.

  A connection sits in the outgoing list of its source and the incoming
  list of its target, never both at one node (only the self-connection
  loops, and it is held in its own slot), a node holds at most one
  outgoing connection per target, and a connection has a gater exactly
  when it sits in that gater's gated list.
 */
module Links {
  import opened Base
  import opened Connections
  import opened Nodes

  predicate OutLinked(h: Heap, n: nat)
    requires Wf(h) && n < |h.nodes|
  {
    var x := h.nodes[n];
    forall i | 0 <= i < |x.outConns| ::
      && h.conns[x.outConns[i]].from == n
      && h.conns[x.outConns[i]].to != n
      && x.outConns[i] in h.nodes[h.conns[x.outConns[i]].to].inConns
  }

  predicate InLinked(h: Heap, n: nat)
    requires Wf(h) && n < |h.nodes|
  {
    var x := h.nodes[n];
    forall i | 0 <= i < |x.inConns| ::
      && h.conns[x.inConns[i]].to == n
      && h.conns[x.inConns[i]].from != n
      && x.inConns[i] in h.nodes[h.conns[x.inConns[i]].from].outConns
  }

  predicate GatedLinked(h: Heap, n: nat)
    requires Wf(h) && n < |h.nodes|
  {
    var x := h.nodes[n];
    forall i | 0 <= i < |x.gated| :: h.conns[x.gated[i]].gater == Some(n)
  }

  /** No two outgoing connections of a node end at the same node. */
  predicate TargetsUnique(h: Heap, n: nat)
    requires Wf(h) && n < |h.nodes|
  {
    var outs := h.nodes[n].outConns;
    forall i, j | 0 <= i < j < |outs| :: h.conns[outs[i]].to != h.conns[outs[j]].to
  }

  predicate NodeLinked(h: Heap, n: nat)
    requires Wf(h) && n < |h.nodes|
  {
    var x := h.nodes[n];
    && h.conns[x.selfConn].from == n
    && h.conns[x.selfConn].to == n
    && Distinct(x.inConns)
    && Distinct(x.outConns)
    && Distinct(x.gated)
    && OutLinked(h, n)
    && InLinked(h, n)
    && GatedLinked(h, n)
    && TargetsUnique(h, n)
  }

  /** A gated connection is in its gater's gated list. */
  predicate GaterLinked(h: Heap, c: nat)
    requires Wf(h) && c < |h.conns|
  {
    var k := h.conns[c];
    k.gater.Some? ==> c in h.nodes[k.gater.value].gated
  }

  predicate Linked(h: Heap) {
    && Wf(h)
    && (forall n | 0 <= n < |h.nodes| :: NodeLinked(h, n))
    && (forall c | 0 <= c < |h.conns| :: GaterLinked(h, c))
  }

  lemma SameShapeLinked(h: Heap, h2: Heap)
    requires Linked(h) && Wf(h2) && SameShape(h, h2)
    ensures Linked(h2)
  {
    forall n | 0 <= n < |h2.nodes| ensures NodeLinked(h2, n) {
      assert NodeLinked(h, n);
      var x := h.nodes[n];
      assert NodeWf(x, |h.conns|);
      assert OutLinked(h2, n) by {
        forall i | 0 <= i < |x.outConns| ensures h2.nodes[h.conns[x.outConns[i]].to].inConns == h.nodes[h.conns[x.outConns[i]].to].inConns {
          assert ConnWf(h.conns[x.outConns[i]], |h.nodes|);
        }
      }
      assert InLinked(h2, n) by {
        forall i | 0 <= i < |x.inConns| ensures h2.nodes[h.conns[x.inConns[i]].from].outConns == h.nodes[h.conns[x.inConns[i]].from].outConns {
          assert ConnWf(h.conns[x.inConns[i]], |h.nodes|);
        }
      }
    }
    forall c | 0 <= c < |h2.conns| ensures GaterLinked(h2, c) {
      assert GaterLinked(h, c);
      assert ConnWf(h.conns[c], |h.nodes|);
    }
  }

  /** A node's ids are valid, so is the fresh node's; the fresh node is linked to nothing. */
  lemma NewNodeLinked(h: Heap, kind: Option<Kind>, draw: real)
    requires Linked(h)
    ensures Linked(NewNode(h, kind, draw).0)
  {
    var (h2, id) := NewNode(h, kind, draw);
    forall n | 0 <= n < |h2.nodes| ensures NodeLinked(h2, n) {
      if n < |h.nodes| {
        assert NodeLinked(h, n);
        assert h2.nodes[n] == h.nodes[n];
        var x := h.nodes[n];
        assert NodeWf(x, |h.conns|);
        forall i | 0 <= i < |x.outConns| ensures h2.conns[x.outConns[i]] == h.conns[x.outConns[i]] { }
        forall i | 0 <= i < |x.inConns| ensures h2.conns[x.inConns[i]] == h.conns[x.inConns[i]] { }
        forall i | 0 <= i < |x.gated| ensures h2.conns[x.gated[i]] == h.conns[x.gated[i]] { }
        forall i | 0 <= i < |x.outConns| ensures h2.nodes[h.conns[x.outConns[i]].to] == h.nodes[h.conns[x.outConns[i]].to] {
          assert ConnWf(h.conns[x.outConns[i]], |h.nodes|);
        }
        forall i | 0 <= i < |x.inConns| ensures h2.nodes[h.conns[x.inConns[i]].from] == h.nodes[h.conns[x.inConns[i]].from] {
          assert ConnWf(h.conns[x.inConns[i]], |h.nodes|);
        }
        assert OutLinked(h2, n) && InLinked(h2, n) && GatedLinked(h2, n) && TargetsUnique(h2, n);
      }
    }
    forall c | 0 <= c < |h2.conns| ensures GaterLinked(h2, c) {
      if c < |h.conns| {
        assert GaterLinked(h, c);
        assert ConnWf(h.conns[c], |h.nodes|);
      }
    }
  }

  /** `h2` is `h` with one more connection `k`, from `a` to `b`, filed at the end of both lists. */
  predicate AddedEdge(h: Heap, h2: Heap, a: nat, b: nat, k: nat) {
    && a < |h.nodes| && b < |h.nodes| && a != b
    && k == |h.conns| && |h2.conns| == k + 1 && |h2.nodes| == |h.nodes|
    && (forall c | 0 <= c < k :: h2.conns[c] == h.conns[c])
    && h2.conns[k].from == a && h2.conns[k].to == b && h2.conns[k].gater == None
    && h2.nodes[a] == h.nodes[a].(outConns := h.nodes[a].outConns + [k])
    && h2.nodes[b] == h.nodes[b].(inConns := h.nodes[b].inConns + [k])
    && (forall n | 0 <= n < |h.nodes| && n != a && n != b :: h2.nodes[n] == h.nodes[n])
  }

  lemma AddedEdgeOutLinked(h: Heap, h2: Heap, a: nat, b: nat, k: nat, n: nat)
    requires Linked(h) && Wf(h2) && AddedEdge(h, h2, a, b, k) && n < |h.nodes|
    ensures OutLinked(h2, n)
  {
    assert NodeLinked(h, n) && OutLinked(h, n);
    var x, y := h.nodes[n], h2.nodes[n];
    assert NodeWf(x, |h.conns|);
    assert y.outConns == x.outConns || (n == a && y.outConns == x.outConns + [k]);
    forall i | 0 <= i < |y.outConns|
      ensures h2.conns[y.outConns[i]].from == n && h2.conns[y.outConns[i]].to != n
      ensures y.outConns[i] in h2.nodes[h2.conns[y.outConns[i]].to].inConns
    {
      if i < |x.outConns| {
        var c := x.outConns[i];
        assert h2.conns[c] == h.conns[c];
        assert ConnWf(h.conns[c], |h.nodes|);
        assert c in h.nodes[h.conns[c].to].inConns;
      }
    }
  }

  lemma AddedEdgeInLinked(h: Heap, h2: Heap, a: nat, b: nat, k: nat, n: nat)
    requires Linked(h) && Wf(h2) && AddedEdge(h, h2, a, b, k) && n < |h.nodes|
    ensures InLinked(h2, n)
  {
    assert NodeLinked(h, n) && InLinked(h, n);
    var x, y := h.nodes[n], h2.nodes[n];
    assert NodeWf(x, |h.conns|);
    assert y.inConns == x.inConns || (n == b && y.inConns == x.inConns + [k]);
    forall i | 0 <= i < |y.inConns|
      ensures h2.conns[y.inConns[i]].to == n && h2.conns[y.inConns[i]].from != n
      ensures y.inConns[i] in h2.nodes[h2.conns[y.inConns[i]].from].outConns
    {
      if i < |x.inConns| {
        var c := x.inConns[i];
        assert h2.conns[c] == h.conns[c];
        assert ConnWf(h.conns[c], |h.nodes|);
        assert c in h.nodes[h.conns[c].from].outConns;
      }
    }
  }

  lemma AddedEdgeTargets(h: Heap, h2: Heap, a: nat, b: nat, k: nat, n: nat)
    requires Linked(h) && Wf(h2) && AddedEdge(h, h2, a, b, k) && n < |h.nodes|
    requires forall c | c in h.nodes[a].outConns :: h.conns[c].to != b
    ensures TargetsUnique(h2, n)
  {
    assert NodeLinked(h, n) && TargetsUnique(h, n);
    var x, y := h.nodes[n], h2.nodes[n];
    assert NodeWf(x, |h.conns|);
    assert y.outConns == x.outConns || (n == a && y.outConns == x.outConns + [k]);
    forall i, j | 0 <= i < j < |y.outConns| ensures h2.conns[y.outConns[i]].to != h2.conns[y.outConns[j]].to {
      assert h2.conns[x.outConns[i]] == h.conns[x.outConns[i]];
      if j < |x.outConns| {
        assert h2.conns[x.outConns[j]] == h.conns[x.outConns[j]];
      } else {
        assert x.outConns[i] in x.outConns;
      }
    }
  }

  lemma AddedEdgeNodeLinked(h: Heap, h2: Heap, a: nat, b: nat, k: nat, n: nat)
    requires Linked(h) && Wf(h2) && AddedEdge(h, h2, a, b, k) && n < |h.nodes|
    requires forall c | c in h.nodes[a].outConns :: h.conns[c].to != b
    ensures NodeLinked(h2, n)
  {
    assert NodeLinked(h, n);
    var x, y := h.nodes[n], h2.nodes[n];
    assert NodeWf(x, |h.conns|);
    AddedEdgeOutLinked(h, h2, a, b, k, n);
    AddedEdgeInLinked(h, h2, a, b, k, n);
    AddedEdgeTargets(h, h2, a, b, k, n);
    assert GatedLinked(h2, n) by {
      forall i | 0 <= i < |y.gated| ensures h2.conns[y.gated[i]].gater == Some(n) {
        assert h2.conns[x.gated[i]] == h.conns[x.gated[i]];
      }
    }
  }

  /** Adding an edge to a target the source does not yet reach keeps the links. */
  lemma AddedEdgeLinked(h: Heap, h2: Heap, a: nat, b: nat, k: nat)
    requires Linked(h) && Wf(h2) && AddedEdge(h, h2, a, b, k)
    requires forall c | c in h.nodes[a].outConns :: h.conns[c].to != b
    ensures Linked(h2)
  {
    forall n | 0 <= n < |h2.nodes| ensures NodeLinked(h2, n) {
      AddedEdgeNodeLinked(h, h2, a, b, k, n);
    }
    forall c | 0 <= c < |h2.conns| ensures GaterLinked(h2, c) {
      if c < k {
        assert GaterLinked(h, c);
        assert ConnWf(h.conns[c], |h.nodes|);
      }
    }
  }

  /** A new edge between distinct nodes the source does not yet project to keeps the links. */
  lemma ConnectLinked(h: Heap, a: nat, b: nat, weight: Option<real>, draw: real)
    requires Linked(h) && a < |h.nodes| && b < |h.nodes| && a != b && !IsProjectingTo(h, a, b)
    ensures Connect(h, a, b, weight, draw).Ok?
    ensures Linked(Connect(h, a, b, weight, draw).value.0)
  {
    var h2 := Connect(h, a, b, weight, draw).value.0;
    AddedEdgeLinked(h, h2, a, b, |h.conns|);
  }

  /** Reviving a node's own loop touches one weight and no list. */
  lemma ConnectSelfLinked(h: Heap, a: nat, weight: Option<real>, draw: real)
    requires Linked(h) && a < |h.nodes|
    ensures Linked(Connect(h, a, a, weight, draw).value.0)
  {
    SameShapeLinked(h, Connect(h, a, a, weight, draw).value.0);
  }

  /** Two heaps with the same edges: every connection keeps its endpoints and every node its lists. */
  predicate SameEdges(h: Heap, h2: Heap) {
    && |h2.nodes| == |h.nodes|
    && |h2.conns| == |h.conns|
    && (forall c | 0 <= c < |h.conns| :: h2.conns[c].from == h.conns[c].from && h2.conns[c].to == h.conns[c].to)
    && (forall n | 0 <= n < |h.nodes| ::
          && h2.nodes[n].inConns == h.nodes[n].inConns
          && h2.nodes[n].outConns == h.nodes[n].outConns
          && h2.nodes[n].selfConn == h.nodes[n].selfConn)
  }

  /** The edge half of NodeLinked. */
  predicate EdgesLinked(h: Heap, n: nat)
    requires Wf(h) && n < |h.nodes|
  {
    var x := h.nodes[n];
    && h.conns[x.selfConn].from == n
    && h.conns[x.selfConn].to == n
    && Distinct(x.inConns)
    && Distinct(x.outConns)
    && OutLinked(h, n)
    && InLinked(h, n)
    && TargetsUnique(h, n)
  }

  lemma SameEdgesLinked(h: Heap, h2: Heap, n: nat)
    requires Wf(h) && Wf(h2) && SameEdges(h, h2) && n < |h.nodes| && EdgesLinked(h, n)
    ensures EdgesLinked(h2, n)
  {
    var x := h.nodes[n];
    assert NodeWf(x, |h.conns|);
    assert OutLinked(h2, n) by {
      forall i | 0 <= i < |x.outConns| ensures h2.nodes[h.conns[x.outConns[i]].to].inConns == h.nodes[h.conns[x.outConns[i]].to].inConns {
        assert ConnWf(h.conns[x.outConns[i]], |h.nodes|);
      }
    }
    assert InLinked(h2, n) by {
      forall i | 0 <= i < |x.inConns| ensures h2.nodes[h.conns[x.inConns[i]].from].outConns == h.nodes[h.conns[x.inConns[i]].from].outConns {
        assert ConnWf(h.conns[x.inConns[i]], |h.nodes|);
      }
    }
  }

  /** Gating a connection nobody gates keeps the links. */
  lemma GateOneLinked(h: Heap, g: nat, c: nat)
    requires Linked(h) && g < |h.nodes| && c < |h.conns| && h.conns[c].gater == None
    ensures Linked(GateOne(h, g, c))
  {
    var h2 := GateOne(h, g, c);
    forall n | 0 <= n < |h2.nodes| ensures NodeLinked(h2, n) {
      assert NodeLinked(h, n);
      assert EdgesLinked(h, n);
      SameEdgesLinked(h, h2, n);
      var x, y := h.nodes[n], h2.nodes[n];
      assert NodeWf(x, |h.conns|);
      assert forall i | 0 <= i < |x.gated| :: x.gated[i] != c;
      assert GatedLinked(h2, n) by {
        forall i | 0 <= i < |y.gated| ensures h2.conns[y.gated[i]].gater == Some(n) {
          if i < |x.gated| { assert x.gated[i] != c; }
        }
      }
    }
    forall d | 0 <= d < |h2.conns| ensures GaterLinked(h2, d) {
      assert GaterLinked(h, d);
      assert ConnWf(h.conns[d], |h.nodes|);
    }
  }

  /** Ungating a connection its gater holds keeps the links. */
  lemma UngateOneLinked(h: Heap, g: nat, c: nat)
    requires Linked(h) && g < |h.nodes| && c < |h.conns| && h.conns[c].gater == Some(g)
    ensures Linked(UngateOne(h, g, c))
  {
    var h2 := UngateOne(h, g, c);
    assert GaterLinked(h, c) && NodeLinked(h, g);
    SpliceOutDistinct(h.nodes[g].gated, c);
    forall n | 0 <= n < |h2.nodes| ensures NodeLinked(h2, n) {
      assert NodeLinked(h, n);
      assert EdgesLinked(h, n);
      SameEdgesLinked(h, h2, n);
      var x, y := h.nodes[n], h2.nodes[n];
      assert NodeWf(x, |h.conns|);
      assert GatedLinked(h2, n) by {
        forall i | 0 <= i < |y.gated| ensures h2.conns[y.gated[i]].gater == Some(n) {
          assert y.gated[i] in x.gated;
          var j :| 0 <= j < |x.gated| && x.gated[j] == y.gated[i];
        }
      }
    }
    forall d | 0 <= d < |h2.conns| ensures GaterLinked(h2, d) {
      assert GaterLinked(h, d);
      assert ConnWf(h.conns[d], |h.nodes|);
    }
  }

  /** Gating distinct connections nobody gates keeps the links. */
  lemma {:induction false} GateLinked(h: Heap, g: nat, cs: seq<nat>)
    requires Linked(h) && g < |h.nodes| && IdsBelow(cs, |h.conns|) && Distinct(cs)
    requires forall i | 0 <= i < |cs| :: h.conns[cs[i]].gater == None
    ensures Linked(Gate(h, g, cs))
    decreases |cs|
  {
    if cs != [] {
      var h1 := GateOne(h, g, cs[0]);
      GateOneLinked(h, g, cs[0]);
      forall i | 0 <= i < |cs[1..]| ensures h1.conns[cs[1..][i]].gater == None {
        assert cs[1..][i] == cs[i + 1] != cs[0];
      }
      assert Distinct(cs[1..]) by {
        forall i, j | 0 <= i < j < |cs[1..]| ensures cs[1..][i] != cs[1..][j] {
          assert cs[i + 1] != cs[j + 1];
        }
      }
      GateLinked(h1, g, cs[1..]);
    }
  }

  /** Ungating distinct connections `g` gates keeps the links. */
  lemma {:induction false} UngateLinked(h: Heap, g: nat, cs: seq<nat>)
    requires Linked(h) && g < |h.nodes| && IdsBelow(cs, |h.conns|) && Distinct(cs)
    requires forall i | 0 <= i < |cs| :: h.conns[cs[i]].gater == Some(g)
    ensures Linked(Ungate(h, g, cs))
    decreases |cs|
  {
    if cs != [] {
      var last := cs[|cs| - 1];
      var front := cs[..|cs| - 1];
      var h1 := UngateOne(h, g, last);
      UngateOneLinked(h, g, last);
      forall i | 0 <= i < |front| ensures h1.conns[front[i]].gater == Some(g) {
        assert front[i] == cs[i] != last;
      }
      assert Distinct(front) by {
        forall i, j | 0 <= i < j < |front| ensures front[i] != front[j] {
          assert cs[i] != cs[j];
        }
      }
      UngateLinked(h1, g, front);
    }
  }

  /** The node lists after Unlink have lost exactly the unlinked connection. */
  lemma UnlinkLists(h: Heap, a: nat, b: nat, i: nat)
    requires Linked(h) && a < |h.nodes| && b < |h.nodes| && a != b && i < |h.nodes[a].outConns|
    requires h.conns[h.nodes[a].outConns[i]].to == b
    ensures var (c, h2) := (h.nodes[a].outConns[i], Unlink(h, a, b, i));
      && Distinct(h2.nodes[a].outConns)
      && Distinct(h2.nodes[b].inConns)
      && (forall d :: d in h2.nodes[a].outConns <==> d in h.nodes[a].outConns && d != c)
      && (forall d :: d in h2.nodes[b].inConns <==> d in h.nodes[b].inConns && d != c)
  {
    var c := h.nodes[a].outConns[i];
    assert NodeLinked(h, a) && NodeLinked(h, b);
    assert OutLinked(h, a);
    assert c in h.nodes[b].inConns;
    RemoveAtDistinct(h.nodes[a].outConns, i);
    SpliceOutDistinct(h.nodes[b].inConns, c);
  }

  lemma UnlinkOutLinked(h: Heap, a: nat, b: nat, i: nat, n: nat)
    requires Linked(h) && a < |h.nodes| && b < |h.nodes| && a != b && i < |h.nodes[a].outConns|
    requires h.conns[h.nodes[a].outConns[i]].to == b && n < |h.nodes|
    ensures OutLinked(Unlink(h, a, b, i), n)
  {
    var c := h.nodes[a].outConns[i];
    var h2 := Unlink(h, a, b, i);
    UnlinkLists(h, a, b, i);
    assert NodeLinked(h, a) && OutLinked(h, a);
    assert h.conns[c].from == a;
    assert NodeLinked(h, n) && OutLinked(h, n);
    var x, y := h.nodes[n], h2.nodes[n];
    assert NodeWf(x, |h.conns|);
    assert forall d | d in y.outConns :: d in x.outConns;
    forall j | 0 <= j < |y.outConns|
      ensures h2.conns[y.outConns[j]].from == n && h2.conns[y.outConns[j]].to != n
      ensures y.outConns[j] in h2.nodes[h2.conns[y.outConns[j]].to].inConns
    {
      var d := y.outConns[j];
      var k :| 0 <= k < |x.outConns| && x.outConns[k] == d;
      assert ConnWf(h.conns[d], |h.nodes|);
      assert d in h.nodes[h.conns[d].to].inConns;
      assert d != c;
    }
  }

  lemma UnlinkInLinked(h: Heap, a: nat, b: nat, i: nat, n: nat)
    requires Linked(h) && a < |h.nodes| && b < |h.nodes| && a != b && i < |h.nodes[a].outConns|
    requires h.conns[h.nodes[a].outConns[i]].to == b && n < |h.nodes|
    ensures InLinked(Unlink(h, a, b, i), n)
  {
    var c := h.nodes[a].outConns[i];
    var h2 := Unlink(h, a, b, i);
    UnlinkLists(h, a, b, i);
    assert NodeLinked(h, n) && InLinked(h, n);
    var x, y := h.nodes[n], h2.nodes[n];
    assert NodeWf(x, |h.conns|);
    forall j | 0 <= j < |y.inConns|
      ensures h2.conns[y.inConns[j]].to == n && h2.conns[y.inConns[j]].from != n
      ensures y.inConns[j] in h2.nodes[h2.conns[y.inConns[j]].from].outConns
    {
      var d := y.inConns[j];
      assert d in x.inConns && d != c by {
        if n != b { assert y.inConns == x.inConns; assert x.inConns[j] == d; }
        else { assert d in y.inConns; }
      }
      var k :| 0 <= k < |x.inConns| && x.inConns[k] == d;
      assert ConnWf(h.conns[d], |h.nodes|);
      var f := h.conns[d].from;
      assert d in h.nodes[f].outConns;
      if f != a {
        assert h2.nodes[f].outConns == h.nodes[f].outConns;
      }
    }
  }

  lemma UnlinkNodeLinked(h: Heap, a: nat, b: nat, i: nat, n: nat)
    requires Linked(h) && a < |h.nodes| && b < |h.nodes| && a != b && i < |h.nodes[a].outConns|
    requires h.conns[h.nodes[a].outConns[i]].to == b && n < |h.nodes|
    ensures NodeLinked(Unlink(h, a, b, i), n)
  {
    var h2 := Unlink(h, a, b, i);
    UnlinkLists(h, a, b, i);
    UnlinkOutLinked(h, a, b, i, n);
    UnlinkInLinked(h, a, b, i, n);
    assert NodeLinked(h, n);
    var x, y := h.nodes[n], h2.nodes[n];
    assert TargetsUnique(h2, n) by {
      if n == a {
        assert TargetsUnique(h, a);
        forall p, q | 0 <= p < q < |y.outConns| ensures h2.conns[y.outConns[p]].to != h2.conns[y.outConns[q]].to {
          var p' := if p < i then p else p + 1;
          var q' := if q < i then q else q + 1;
          assert y.outConns[p] == x.outConns[p'] && y.outConns[q] == x.outConns[q'];
        }
      }
    }
    assert GatedLinked(h, n);
  }

  /** Taking one edge out of both its lists keeps the links (its gating is untouched). */
  lemma UnlinkLinked(h: Heap, a: nat, b: nat, i: nat)
    requires Linked(h) && a < |h.nodes| && b < |h.nodes| && a != b && i < |h.nodes[a].outConns|
    requires h.conns[h.nodes[a].outConns[i]].to == b
    ensures Linked(Unlink(h, a, b, i))
  {
    var h2 := Unlink(h, a, b, i);
    forall n | 0 <= n < |h2.nodes| ensures NodeLinked(h2, n) {
      UnlinkNodeLinked(h, a, b, i, n);
    }
    forall d | 0 <= d < |h2.conns| ensures GaterLinked(h2, d) {
      assert GaterLinked(h, d);
      assert ConnWf(h.conns[d], |h.nodes|);
    }
  }

  lemma DisconnectOneLinked(h: Heap, a: nat, b: nat)
    requires Linked(h) && a < |h.nodes| && b < |h.nodes| && a != b
    ensures Linked(DisconnectOne(h, a, b))
  {
    assert NodeWf(h.nodes[a], |h.conns|);
    var outs := h.nodes[a].outConns;
    var i := FirstTo(h, outs, b);
    if i < |outs| {
      var c := outs[i];
      UnlinkLinked(h, a, b, i);
      var h1 := Unlink(h, a, b, i);
      if h.conns[c].gater.Some? {
        assert ConnWf(h.conns[c], |h.nodes|);
        UngateOneLinked(h1, h.conns[c].gater.value, c);
      }
    }
  }

  lemma DisconnectLinked(h: Heap, a: nat, b: nat, twosided: bool)
    requires Linked(h) && a < |h.nodes| && b < |h.nodes|
    ensures Linked(Disconnect(h, a, b, twosided))
  {
    if a == b {
      SameShapeLinked(h, Disconnect(h, a, b, twosided));
    } else {
      DisconnectOneLinked(h, a, b);
      if twosided {
        DisconnectOneLinked(DisconnectOne(h, a, b), b, a);
      }
    }
  }
}
