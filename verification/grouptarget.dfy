/**
  `node.connect` with a group as its target.
 */
module GroupTargets {
  import opened Base
  import opened Connections
  import opened Nodes
  import opened Groups

  /** Appends connection `c` from `a` to `t` and files it in `a`'s outgoing and `t`'s incoming list. */
  function LinkNew(h: Heap, a: nat, t: nat, c: Connection): (r: Heap)
    requires a < |h.nodes| && t < |h.nodes|
    ensures |r.nodes| == |h.nodes| && r.conns == h.conns + [c]
  {
    var k := |h.conns|;
    var ns := h.nodes[t := h.nodes[t].(inConns := h.nodes[t].inConns + [k])];
    Heap(ns[a := ns[a].(outConns := ns[a].outConns + [k])], h.conns + [c])
  }

  /** The new connection joins `a`'s outgoing list; no other outgoing list changes. */
  lemma LinkNewOuts(h: Heap, a: nat, t: nat, c: Connection, k: nat)
    requires a < |h.nodes| && t < |h.nodes| && k < |h.nodes|
    ensures LinkNew(h, a, t, c).nodes[k].outConns == h.nodes[k].outConns + (if k == a then [|h.conns|] else [])
  {
  }

  /** The new connection joins `t`'s incoming list; no other incoming list changes. */
  lemma LinkNewIns(h: Heap, a: nat, t: nat, c: Connection, k: nat)
    requires a < |h.nodes| && t < |h.nodes| && k < |h.nodes|
    ensures LinkNew(h, a, t, c).nodes[k].inConns == h.nodes[k].inConns + (if k == t then [|h.conns|] else [])
  {
  }

  /** Every field of every node other than its two lists is kept. */
  lemma LinkNewKeeps(h: Heap, a: nat, t: nat, c: Connection, k: nat)
    requires a < |h.nodes| && t < |h.nodes| && k < |h.nodes|
    ensures var r := LinkNew(h, a, t, c).nodes[k];
      r == h.nodes[k].(inConns := r.inConns, outConns := r.outConns)
  {
  }

  /** Filing a well-formed connection from `a` to `t` keeps the arena well formed. */
  lemma LinkNewWf(h: Heap, a: nat, t: nat, c: Connection)
    requires Wf(h) && a < |h.nodes| && t < |h.nodes| && ConnWf(c, |h.nodes|)
    ensures Wf(LinkNew(h, a, t, c))
  {
    var r := LinkNew(h, a, t, c);
    forall i | 0 <= i < |r.conns| ensures ConnWf(r.conns[i], |r.nodes|) {
      if i < |h.conns| { assert ConnWf(h.conns[i], |h.nodes|); }
    }
    forall i | 0 <= i < |r.nodes| ensures NodeWf(r.nodes[i], |r.conns|) {
      assert NodeWf(h.nodes[i], |h.conns|);
    }
  }

  /** The connections numbered `base + i`, for i < n, whose target `ts[i]` is `k`, in order. */
  function Into(ts: seq<nat>, k: nat, base: nat, n: nat): seq<nat>
    requires n <= |ts|
  {
    if n == 0 then [] else Into(ts, k, base, n - 1) + (if ts[n - 1] == k then [base + n - 1] else [])
  }

  /**
    The first `n` turns of `a.connect(group, weight)`: turn i makes a new
    connection from `a` to group node `ts[i]`, with `draw(i)` the random
    weight used when none is given, and appends it to `a`'s outgoing and
    its target's incoming list.
   */
  function ConnectFirst(h: Heap, a: nat, ts: seq<nat>, n: nat, weight: Option<real>, draw: nat -> real)
    : (r: (Heap, seq<nat>))
    requires a < |h.nodes| && IdsBelow(ts, |h.nodes|) && n <= |ts|
    ensures |r.0.nodes| == |h.nodes| && |r.0.conns| == |h.conns| + n && |r.1| == n
  {
    if n == 0 then (h, [])
    else
      var p := ConnectFirst(h, a, ts, n - 1, weight, draw);
      (LinkNew(p.0, a, ts[n - 1], Connections.New(a, ts[n - 1], weight, draw(n - 1))), p.1 + [|p.0.conns|])
  }

  /** Every turn keeps the arena well formed. */
  lemma {:induction false} ConnectFirstWf(h: Heap, a: nat, ts: seq<nat>, n: nat, weight: Option<real>, draw: nat -> real)
    requires Wf(h) && a < |h.nodes| && IdsBelow(ts, |h.nodes|) && n <= |ts|
    ensures Wf(ConnectFirst(h, a, ts, n, weight, draw).0)
  {
    if n > 0 {
      ConnectFirstWf(h, a, ts, n - 1, weight, draw);
      var p := ConnectFirst(h, a, ts, n - 1, weight, draw);
      LinkNewWf(p.0, a, ts[n - 1], Connections.New(a, ts[n - 1], weight, draw(n - 1)));
    }
  }

  /**
    `a.connect(group, weight)` for a group with nodes `ts`. Unlike a node
    target, nothing is checked: a node `a` already projects to, or `a`
    itself, gets a further connection.
   */
  function ConnectGroup(h: Heap, a: nat, ts: seq<nat>, weight: Option<real>, draw: nat -> real)
    : (r: (Heap, seq<nat>))
    requires Wf(h) && a < |h.nodes| && IdsBelow(ts, |h.nodes|)
    ensures Wf(r.0) && |r.0.nodes| == |h.nodes| && |r.0.conns| == |h.conns| + |ts| && |r.1| == |ts|
  {
    ConnectFirstWf(h, a, ts, |ts|, weight, draw);
    ConnectFirst(h, a, ts, |ts|, weight, draw)
  }

  /** The connections the arena held are kept. */
  lemma {:induction false} ConnectFirstKeepsConns(h: Heap, a: nat, ts: seq<nat>, n: nat, weight: Option<real>, draw: nat -> real)
    requires a < |h.nodes| && IdsBelow(ts, |h.nodes|) && n <= |ts|
    ensures ConnectFirst(h, a, ts, n, weight, draw).0.conns[..|h.conns|] == h.conns
  {
    if n > 0 {
      ConnectFirstKeepsConns(h, a, ts, n - 1, weight, draw);
      var p := ConnectFirst(h, a, ts, n - 1, weight, draw);
      assert ConnectFirst(h, a, ts, n, weight, draw).0.conns[..|h.conns|] == p.0.conns[..|h.conns|];
    }
  }

  /** Turn i appends connection `|h.conns| + i`, from `a` to `ts[i]`, and returns its number. */
  lemma {:induction false} ConnectFirstConn(h: Heap, a: nat, ts: seq<nat>, n: nat, i: nat, weight: Option<real>, draw: nat -> real)
    requires a < |h.nodes| && IdsBelow(ts, |h.nodes|) && i < n <= |ts|
    ensures var r := ConnectFirst(h, a, ts, n, weight, draw);
      r.1[i] == |h.conns| + i && r.0.conns[|h.conns| + i] == Connections.New(a, ts[i], weight, draw(i))
  {
    var p := ConnectFirst(h, a, ts, n - 1, weight, draw);
    if i < n - 1 {
      ConnectFirstConn(h, a, ts, n - 1, i, weight, draw);
      var r := ConnectFirst(h, a, ts, n, weight, draw);
      assert r.1[i] == p.1[i];
      assert r.0.conns[|h.conns| + i] == p.0.conns[|h.conns| + i];
    }
  }

  /** Every new connection joins `a`'s outgoing list, in order; no other node's outgoing list changes. */
  lemma {:induction false} ConnectFirstOuts(h: Heap, a: nat, ts: seq<nat>, n: nat, k: nat, weight: Option<real>, draw: nat -> real)
    requires a < |h.nodes| && IdsBelow(ts, |h.nodes|) && n <= |ts| && k < |h.nodes|
    ensures var r := ConnectFirst(h, a, ts, n, weight, draw);
      r.0.nodes[k].outConns == h.nodes[k].outConns + (if k == a then r.1 else [])
  {
    if n > 0 {
      ConnectFirstOuts(h, a, ts, n - 1, k, weight, draw);
      var p := ConnectFirst(h, a, ts, n - 1, weight, draw);
      LinkNewOuts(p.0, a, ts[n - 1], Connections.New(a, ts[n - 1], weight, draw(n - 1)), k);
      if k == a {
        assert h.nodes[a].outConns + p.1 + [|p.0.conns|] == h.nodes[a].outConns + (p.1 + [|p.0.conns|]);
      }
    }
  }

  /** Node `k`'s incoming list gains exactly the new connections made to it, in order. */
  lemma {:induction false} ConnectFirstIns(h: Heap, a: nat, ts: seq<nat>, n: nat, k: nat, weight: Option<real>, draw: nat -> real)
    requires a < |h.nodes| && IdsBelow(ts, |h.nodes|) && n <= |ts| && k < |h.nodes|
    ensures ConnectFirst(h, a, ts, n, weight, draw).0.nodes[k].inConns == h.nodes[k].inConns + Into(ts, k, |h.conns|, n)
  {
    if n > 0 {
      ConnectFirstIns(h, a, ts, n - 1, k, weight, draw);
      var p := ConnectFirst(h, a, ts, n - 1, weight, draw);
      LinkNewIns(p.0, a, ts[n - 1], Connections.New(a, ts[n - 1], weight, draw(n - 1)), k);
      var e := if ts[n - 1] == k then [|h.conns| + n - 1] else [];
      assert h.nodes[k].inConns + Into(ts, k, |h.conns|, n - 1) + e == h.nodes[k].inConns + (Into(ts, k, |h.conns|, n - 1) + e);
    }
  }

  /** Only incoming and outgoing lists change: every other field of every node is kept. */
  lemma {:induction false} ConnectFirstKeeps(h: Heap, a: nat, ts: seq<nat>, n: nat, k: nat, weight: Option<real>, draw: nat -> real)
    requires a < |h.nodes| && IdsBelow(ts, |h.nodes|) && n <= |ts| && k < |h.nodes|
    ensures var r := ConnectFirst(h, a, ts, n, weight, draw).0.nodes[k];
      r == h.nodes[k].(inConns := r.inConns, outConns := r.outConns)
  {
    if n > 0 {
      ConnectFirstKeeps(h, a, ts, n - 1, k, weight, draw);
      var p := ConnectFirst(h, a, ts, n - 1, weight, draw);
      LinkNewKeeps(p.0, a, ts[n - 1], Connections.New(a, ts[n - 1], weight, draw(n - 1)), k);
    }
  }

  /** After `a.connect(group)`, `a` projects to every group node, itself included when it belongs to the group. */
  lemma ConnectGroupProjects(h: Heap, a: nat, ts: seq<nat>, i: nat, weight: Option<real>, draw: nat -> real)
    requires Wf(h) && a < |h.nodes| && IdsBelow(ts, |h.nodes|) && i < |ts|
    ensures IsProjectingTo(ConnectGroup(h, a, ts, weight, draw).0, a, ts[i])
  {
    var p := ConnectGroup(h, a, ts, weight, draw);
    ConnectFirstConn(h, a, ts, |ts|, i, weight, draw);
    ConnectFirstOuts(h, a, ts, |ts|, a, weight, draw);
    assert p.1[i] in p.0.nodes[a].outConns;
  }

  /** Whatever `a` projected to before `a.connect(group)`, it still projects to. */
  lemma ConnectGroupKeepsProjections(h: Heap, a: nat, ts: seq<nat>, b: nat, weight: Option<real>, draw: nat -> real)
    requires Wf(h) && a < |h.nodes| && IdsBelow(ts, |h.nodes|) && IsProjectingTo(h, a, b)
    ensures IsProjectingTo(ConnectGroup(h, a, ts, weight, draw).0, a, b)
  {
    var r := ConnectGroup(h, a, ts, weight, draw).0;
    ConnectFirstKeepsConns(h, a, ts, |ts|, weight, draw);
    ConnectFirstOuts(h, a, ts, |ts|, a, weight, draw);
    ConnectFirstKeeps(h, a, ts, |ts|, a, weight, draw);
    assert NodeWf(h.nodes[a], |h.conns|);
    if c :| c in h.nodes[a].outConns && h.conns[c].to == b {
      assert r.conns[..|h.conns|][c] == h.conns[c];
      assert c in r.nodes[a].outConns;
    } else {
      assert r.conns[..|h.conns|][h.nodes[a].selfConn] == h.conns[h.nodes[a].selfConn];
    }
  }

  /**
    `a.connect(G, weight)`: besides the nodes' own lists, every new
    connection is recorded, in order, in the group's incoming list.
   */
  function ConnectToGroup(h: Heap, a: nat, G: Group, weight: Option<real>, draw: nat -> real)
    : (r: (Heap, Group, seq<nat>))
    requires Wf(h) && a < |h.nodes| && GroupWf(h, G)
    ensures Wf(r.0) && GroupWf(r.0, r.1) && |r.2| == |G.nodes|
    ensures r.1 == G.(ins := G.ins + r.2)
  {
    var p := ConnectGroup(h, a, G.nodes, weight, draw);
    var R := G.(ins := G.ins + p.1);
    assert GroupWf(p.0, R) by {
      forall i | 0 <= i < |p.1| ensures p.1[i] < |p.0.conns| {
        ConnectFirstConn(h, a, G.nodes, |G.nodes|, i, weight, draw);
      }
    }
    (p.0, R, p.1)
  }

  /** The i-th connection the group records runs from `a` to the group's i-th node. */
  lemma ConnectToGroupIns(h: Heap, a: nat, G: Group, i: nat, weight: Option<real>, draw: nat -> real)
    requires Wf(h) && a < |h.nodes| && GroupWf(h, G) && i < |G.nodes|
    ensures var r := ConnectToGroup(h, a, G, weight, draw);
      var c := r.0.conns[r.1.ins[|G.ins| + i]];
      c.from == a && c.to == G.nodes[i]
  {
    ConnectFirstConn(h, a, G.nodes, |G.nodes|, i, weight, draw);
  }
}
