/**
  `Network.merge(network1, network2)`: network1's outputs feed network2.

  Both networks are first copied through their JSON record. A network2
  connection leaving an input node is redirected to a network1 node, the
  input nodes of network2 are spliced out, network1's output nodes become
  hidden, and the node and connection lists are concatenated.
 */
module Merging {
  import opened Base
  import opened Connections
  import opened Nodes
  import opened Networks
  import opened Constructor
  import opened Serialize

  // ------------------------------------------------------------- redirection

  /**
    The position in network1 that a network2 connection leaving node `n`
    is redirected to: counted back from network1's last node by n's
    position in network2.
   */
  function RedirectTarget(M1: Network, M2: Network, n: nat): int {
    |M1.nodes| - 1 - IndexOf(M2.nodes, n)
  }

  /** An input-typed from node whose target holds no network1 node: the source assigns `undefined`. */
  predicate Strays(h: Heap, M1: Network, M2: Network, x: Connection)
    requires x.from < |h.nodes|
  {
    h.nodes[x.from].kind == Input && !(0 <= RedirectTarget(M1, M2, x.from) < |M1.nodes|)
  }

  /** The connection once the redirect loop has visited it. */
  function Moved(h: Heap, M1: Network, M2: Network, x: Connection): Connection
    requires x.from < |h.nodes|
  {
    var t := RedirectTarget(M1, M2, x.from);
    if h.nodes[x.from].kind == Input && 0 <= t < |M1.nodes| then x.(from := M1.nodes[t]) else x
  }

  lemma MovedWf(h: Heap, M1: Network, M2: Network, x: Connection)
    requires Wf(h) && IdsBelow(M1.nodes, |h.nodes|) && ConnWf(x, |h.nodes|)
    ensures ConnWf(Moved(h, M1, M2, x), |h.nodes|)
  {
  }

  /**
    The redirect loop over the connections `cs` of network2 from the k-th
    on: a connection whose from node is of type input is re-pointed at
    network1's node; only the connection's `from` field changes.
   */
  function Redirect(h: Heap, M1: Network, M2: Network, cs: seq<nat>, k: nat): (r: Result<Heap>)
    requires Wf(h) && IdsBelow(M1.nodes, |h.nodes|) && IdsBelow(cs, |h.conns|) && k <= |cs|
    ensures r.Ok? ==> Wf(r.value) && r.value.nodes == h.nodes && |r.value.conns| == |h.conns|
    ensures r.Err? ==> r.error == Undefined
    decreases |cs| - k
  {
    if k == |cs| then Ok(h)
    else
      var x := h.conns[cs[k]];
      assert ConnWf(x, |h.nodes|);
      if Strays(h, M1, M2, x) then Err(Undefined)
      else
        MovedWf(h, M1, M2, x);
        Redirect(PutConn(h, cs[k], Moved(h, M1, M2, x)), M1, M2, cs, k + 1)
  }

  /** One connection of network2 strays from position k on. */
  predicate AnyStrays(h: Heap, M1: Network, M2: Network, cs: seq<nat>, k: nat)
    requires Wf(h) && IdsBelow(cs, |h.conns|) && k <= |cs|
  {
    exists j | k <= j < |cs| :: Strays(h, M1, M2, h.conns[cs[j]])
  }

  /** `c` is one of `cs[k..]`. */
  predicate Listed(cs: seq<nat>, k: nat, c: nat) {
    exists j | k <= j < |cs| :: cs[j] == c
  }

  /** The heap after the loop body has run on `cs[k]`, which does not stray. */
  function StepAt(h: Heap, M1: Network, M2: Network, cs: seq<nat>, k: nat): (r: Heap)
    requires Wf(h) && IdsBelow(M1.nodes, |h.nodes|) && IdsBelow(cs, |h.conns|) && k < |cs|
    requires !Strays(h, M1, M2, h.conns[cs[k]])
    ensures Wf(r) && r.nodes == h.nodes && r.conns == h.conns[cs[k] := Moved(h, M1, M2, h.conns[cs[k]])]
    ensures Redirect(h, M1, M2, cs, k) == Redirect(r, M1, M2, cs, k + 1)
  {
    MovedWf(h, M1, M2, h.conns[cs[k]]);
    PutConn(h, cs[k], Moved(h, M1, M2, h.conns[cs[k]]))
  }

  /** The step leaves the connections listed after position k alone. */
  lemma StepKeepsRest(h: Heap, M1: Network, M2: Network, cs: seq<nat>, k: nat)
    requires Wf(h) && IdsBelow(M1.nodes, |h.nodes|) && IdsBelow(cs, |h.conns|) && k < |cs| && Distinct(cs)
    requires !Strays(h, M1, M2, h.conns[cs[k]])
    ensures forall j | k < j < |cs| :: StepAt(h, M1, M2, cs, k).conns[cs[j]] == h.conns[cs[j]]
    ensures !Listed(cs, k + 1, cs[k])
  {
  }

  /** Past a step that does not stray, the same connections are left to stray. */
  lemma StraysAfterStep(h: Heap, M1: Network, M2: Network, cs: seq<nat>, k: nat)
    requires Wf(h) && IdsBelow(M1.nodes, |h.nodes|) && IdsBelow(cs, |h.conns|) && k < |cs| && Distinct(cs)
    requires !Strays(h, M1, M2, h.conns[cs[k]])
    ensures AnyStrays(h, M1, M2, cs, k) <==> AnyStrays(StepAt(h, M1, M2, cs, k), M1, M2, cs, k + 1)
  {
    var h1 := StepAt(h, M1, M2, cs, k);
    StepKeepsRest(h, M1, M2, cs, k);
    if AnyStrays(h, M1, M2, cs, k) {
      var j :| k <= j < |cs| && Strays(h, M1, M2, h.conns[cs[j]]);
      assert j != k;
      assert h1.conns[cs[j]] == h.conns[cs[j]];
    }
    if AnyStrays(h1, M1, M2, cs, k + 1) {
      var j :| k + 1 <= j < |cs| && Strays(h1, M1, M2, h1.conns[cs[j]]);
      assert h1.conns[cs[j]] == h.conns[cs[j]];
    }
  }

  /** Over a list without repeats the loop throws exactly when some connection strays. */
  lemma {:induction false} RedirectFails(h: Heap, M1: Network, M2: Network, cs: seq<nat>, k: nat)
    requires Wf(h) && IdsBelow(M1.nodes, |h.nodes|) && IdsBelow(cs, |h.conns|) && k <= |cs| && Distinct(cs)
    ensures Redirect(h, M1, M2, cs, k).Err? <==> AnyStrays(h, M1, M2, cs, k)
    decreases |cs| - k
  {
    if k < |cs| {
      if !Strays(h, M1, M2, h.conns[cs[k]]) {
        StraysAfterStep(h, M1, M2, cs, k);
        RedirectFails(StepAt(h, M1, M2, cs, k), M1, M2, cs, k + 1);
      }
    }
  }

  /** A connection not listed is left alone. */
  lemma {:induction false} RedirectKeeps(h: Heap, M1: Network, M2: Network, cs: seq<nat>, k: nat, c: nat)
    requires Wf(h) && IdsBelow(M1.nodes, |h.nodes|) && IdsBelow(cs, |h.conns|) && k <= |cs|
    requires c < |h.conns| && !Listed(cs, k, c)
    ensures var r := Redirect(h, M1, M2, cs, k); r.Ok? ==> r.value.conns[c] == h.conns[c]
    decreases |cs| - k
  {
    if k < |cs| && !Strays(h, M1, M2, h.conns[cs[k]]) {
      assert cs[k] != c;
      assert !Listed(cs, k + 1, c);
      RedirectKeeps(StepAt(h, M1, M2, cs, k), M1, M2, cs, k + 1, c);
    }
  }

  /** Over a list without repeats every listed connection ends up Moved. */
  lemma {:induction false} RedirectMoves(h: Heap, M1: Network, M2: Network, cs: seq<nat>, k: nat, j: nat)
    requires Wf(h) && IdsBelow(M1.nodes, |h.nodes|) && IdsBelow(cs, |h.conns|) && k <= j < |cs| && Distinct(cs)
    ensures ConnWf(h.conns[cs[j]], |h.nodes|)
    ensures var r := Redirect(h, M1, M2, cs, k); r.Ok? ==> r.value.conns[cs[j]] == Moved(h, M1, M2, h.conns[cs[j]])
    decreases |cs| - k
  {
    assert ConnWf(h.conns[cs[j]], |h.nodes|);
    if !Strays(h, M1, M2, h.conns[cs[k]]) {
      var h1 := StepAt(h, M1, M2, cs, k);
      StepKeepsRest(h, M1, M2, cs, k);
      if j == k {
        RedirectKeeps(h1, M1, M2, cs, k + 1, cs[k]);
      } else {
        RedirectMoves(h1, M1, M2, cs, k + 1, j);
      }
    }
  }

  // ------------------------------------------------------------ retyping

  /** `n` is one of `ids[lo..k]`. */
  predicate AmongFrom(ids: seq<nat>, lo: nat, k: nat, n: nat)
    requires lo <= k <= |ids|
  {
    exists i | lo <= i < k :: ids[i] == n
  }

  /** The retyping loop over positions lo .. k - 1 of `ids`: each of those nodes becomes hidden. */
  function Retype(h: Heap, ids: seq<nat>, lo: nat, k: nat): (r: Heap)
    requires Wf(h) && IdsBelow(ids, |h.nodes|) && lo <= k <= |ids|
    ensures Wf(r) && r.conns == h.conns && |r.nodes| == |h.nodes|
    ensures forall n | 0 <= n < |h.nodes| :: r.nodes[n] == h.nodes[n].(kind := r.nodes[n].kind)
    ensures forall n | 0 <= n < |h.nodes| ::
      r.nodes[n].kind == (if AmongFrom(ids, lo, k, n) then Hidden else h.nodes[n].kind)
    decreases k - lo
  {
    if k == lo then h
    else
      var h1 := Retype(h, ids, lo, k - 1);
      var n := ids[k - 1];
      assert NodeWf(h1.nodes[n], |h1.conns|);
      var r := PutNode(h1, n, h1.nodes[n].(kind := Hidden));
      assert forall m | 0 <= m < |h.nodes| && m != n :: AmongFrom(ids, lo, k, m) == AmongFrom(ids, lo, k - 1, m);
      assert AmongFrom(ids, lo, k, n);
      r
  }

  // ------------------------------------------------------------ splicing

  /** The splice loop `for i = k - 1 down to 0: nodes.splice(i, 1)`. */
  function DropInputs(s: seq<nat>, k: nat): seq<nat>
    decreases k
  {
    if k == 0 then s else DropInputs(Splice(s, k - 1), k - 1)
  }

  /** The loop removes the first k nodes, or all of them when there are fewer. */
  lemma {:induction false} DropInputsFront(s: seq<nat>, k: nat)
    ensures DropInputs(s, k) == s[Min(k, |s|)..]
    decreases k
  {
    if k > 0 {
      var s1 := Splice(s, k - 1);
      DropInputsFront(s1, k - 1);
      if k - 1 < |s| {
        assert s1 == RemoveAt(s, k - 1);
        assert s1[k - 1..] == s[k..];
      } else {
        assert s1 == s;
      }
    }
  }

  // ------------------------------------------------------------ fusing

  /**
    The part of `merge` after the copies, on the copies M1 and M2, as
    written: a size mismatch throws, the connections are redirected, a
    network1 with fewer nodes than outputs throws in the retyping loop, and
    the merged network keeps network1's `output`.
   */
  function Fuse(h: Heap, M1: Network, M2: Network): (r: Result<(Heap, Network)>)
    requires Wf(h) && Indexed(h, M1) && Indexed(h, M2)
    ensures M1.output != M2.input <==> r == Err(SizeMismatch)
    ensures r.Err? ==> r.error in {SizeMismatch, Undefined}
    ensures r.Ok? ==>
      && Wf(r.value.0) && Indexed(r.value.0, r.value.1) && |r.value.0.conns| == |h.conns|
      && r.value.1 == M1.(connections := M1.connections + M2.connections,
                          nodes := M1.nodes + M2.nodes[Min(M2.input, |M2.nodes|)..])
  {
    if M1.output != M2.input then Err(SizeMismatch)
    else
      var h1 :- Redirect(h, M1, M2, M2.connections, 0);
      if |M1.nodes| < M1.output then Err(Undefined)
      else
        var h2 := Retype(h1, M1.nodes, |M1.nodes| - M1.output, |M1.nodes|);
        DropInputsFront(M2.nodes, M2.input);
        IdsBelowSuffix(M2.nodes, Min(M2.input, |M2.nodes|), |h2.nodes|);
        IdsBelowConcat(M1.nodes, M2.nodes[Min(M2.input, |M2.nodes|)..], |h2.nodes|);
        IdsBelowConcat(M1.connections, M2.connections, |h2.conns|);
        var N := M1.(connections := M1.connections + M2.connections,
                     nodes := M1.nodes + DropInputs(M2.nodes, M2.input));
        Ok((h2, N))
  }

  /** The merged network as evidently intended: its outputs are network2's, so it takes network2's `output`. */
  function FuseFixed(h: Heap, M1: Network, M2: Network): (r: Result<(Heap, Network)>)
    requires Wf(h) && Indexed(h, M1) && Indexed(h, M2)
    ensures r.Ok? <==> Fuse(h, M1, M2).Ok?
    ensures r.Err? ==> r == Fuse(h, M1, M2)
    ensures r.Ok? ==> r.value.0 == Fuse(h, M1, M2).value.0
    ensures r.Ok? ==> r.value.1 == Fuse(h, M1, M2).value.1.(output := M2.output)
  {
    var (h2, N) :- Fuse(h, M1, M2);
    Ok((h2, N.(output := M2.output)))
  }

  // ------------------------------------------------------------ layout

  /**
    The node order `new Network` leaves: the first `input` nodes, and only
    they, are of type input, and the last `output` nodes, and only they,
    are of type output.
   */
  predicate LaidOutAs(h: Heap, nodes: seq<nat>, input: nat, output: nat)
    requires IdsBelow(nodes, |h.nodes|)
  {
    && input + output <= |nodes|
    && forall p | 0 <= p < |nodes| ::
         && (h.nodes[nodes[p]].kind == Input <==> p < input)
         && (h.nodes[nodes[p]].kind == Output <==> |nodes| - output <= p)
  }

  predicate LaidOut(h: Heap, N: Network)
    requires IdsBelow(N.nodes, |h.nodes|)
  {
    LaidOutAs(h, N.nodes, N.input, N.output)
  }

  /** The layout fixes the output count: it is the number of output-typed nodes at the end. */
  lemma LaidOutUnique(h: Heap, nodes: seq<nat>, input: nat, o1: nat, o2: nat)
    requires IdsBelow(nodes, |h.nodes|) && LaidOutAs(h, nodes, input, o1) && LaidOutAs(h, nodes, input, o2)
    ensures o1 == o2
  {
    var m := if o1 < o2 then o2 else o1;
    if 0 < m {
      assert h.nodes[nodes[|nodes| - m]].kind == Output;
    }
  }

  /** `new Network(input, output)` is laid out. */
  lemma NewLaidOut(h: Heap, input: nat, output: nat, ws: nat -> real, biases: nat -> real)
    requires Wf(h)
    ensures var r := Networks.New(h, Some(input), Some(output), ws, biases);
      r.Ok? && Indexed(r.value.0, r.value.1) && LaidOut(r.value.0, r.value.1)
  {
    NewShape(h, input, output, ws, biases);
  }

  /** A copy of a laid-out network is laid out. */
  lemma MirrorLaidOut(h: Heap, N: Network, h2: Heap, N2: Network)
    requires Wf(h) && Indexed(h, N) && Wf(h2) && Indexed(h2, N2)
    requires Mirrors(h, N, h2, N2) && LaidOut(h, N)
    ensures LaidOut(h2, N2)
  {
  }

  // ------------------------------------------------------------ fusing laid-out copies

  /**
    What `merge` knows of its two copies: network1's nodes without
    repeats, network2's connections without repeats and leaving network2
    nodes, the two node lists apart, both laid out, and the sizes matching.
   */
  predicate Fusable(h: Heap, M1: Network, M2: Network)
    requires Wf(h) && Indexed(h, M1) && Indexed(h, M2)
  {
    && Distinct(M1.nodes) && Distinct(M2.connections)
    && (forall i, j | 0 <= i < |M1.nodes| && 0 <= j < |M2.nodes| :: M1.nodes[i] != M2.nodes[j])
    && (forall k | 0 <= k < |M2.connections| :: h.conns[M2.connections[k]].from in M2.nodes)
    && LaidOut(h, M1) && LaidOut(h, M2) && M1.output == M2.input
  }

  /** Laid-out copies always merge: no connection strays and network1 has its outputs. */
  lemma FuseOk(h: Heap, M1: Network, M2: Network)
    requires Wf(h) && Indexed(h, M1) && Indexed(h, M2) && Fusable(h, M1, M2)
    ensures Fuse(h, M1, M2).Ok?
  {
    var cs := M2.connections;
    RedirectFails(h, M1, M2, cs, 0);
    forall j | 0 <= j < |cs| ensures !Strays(h, M1, M2, h.conns[cs[j]]) {
      var x := h.conns[cs[j]];
      assert ConnWf(x, |h.nodes|);
      var i := IndexOf(M2.nodes, x.from);
      assert M2.nodes[i] == x.from;
    }
  }

  /** Retyping a list without repeats from `lo` on makes exactly its nodes from `lo` on hidden. */
  lemma RetypeMembers(h: Heap, ids: seq<nat>, lo: nat, p: nat)
    requires Wf(h) && IdsBelow(ids, |h.nodes|) && lo <= |ids| && Distinct(ids) && p < |ids|
    ensures Retype(h, ids, lo, |ids|).nodes[ids[p]].kind == if lo <= p then Hidden else h.nodes[ids[p]].kind
  {
    if AmongFrom(ids, lo, |ids|, ids[p]) {
      var i :| lo <= i < |ids| && ids[i] == ids[p];
      assert i == p;
    }
  }

  /** Retyping leaves the type of a node outside the list alone. */
  lemma RetypeOthers(h: Heap, ids: seq<nat>, lo: nat, n: nat)
    requires Wf(h) && IdsBelow(ids, |h.nodes|) && lo <= |ids| && n < |h.nodes|
    requires forall i | 0 <= i < |ids| :: ids[i] != n
    ensures Retype(h, ids, lo, |ids|).nodes[n].kind == h.nodes[n].kind
  {
  }

  /** The member list of a successful fuse as one sequence. */
  lemma FuseNodes(h: Heap, M1: Network, M2: Network)
    requires Wf(h) && Indexed(h, M1) && Indexed(h, M2) && Fuse(h, M1, M2).Ok? && M2.input <= |M2.nodes|
    ensures Fuse(h, M1, M2).value.1.nodes == M1.nodes + M2.nodes[M2.input..]
  {
  }

  /** The node list of a successful fuse: network1's, then network2's past its inputs. */
  lemma FuseTail(h: Heap, M1: Network, M2: Network)
    requires Wf(h) && Indexed(h, M1) && Indexed(h, M2) && Fuse(h, M1, M2).Ok? && M2.input <= |M2.nodes|
    ensures var R := Fuse(h, M1, M2).value.1;
      && |R.nodes| == |M1.nodes| + |M2.nodes| - M2.input
      && (forall p | 0 <= p < |M1.nodes| :: R.nodes[p] == M1.nodes[p])
      && (forall p | |M1.nodes| <= p < |R.nodes| :: R.nodes[p] == M2.nodes[M2.input + p - |M1.nodes|])
  {
    FuseNodes(h, M1, M2);
    var R := Fuse(h, M1, M2).value.1;
    forall p | |M1.nodes| <= p < |R.nodes| ensures R.nodes[p] == M2.nodes[M2.input + p - |M1.nodes|] {
      assert M2.nodes[M2.input..][p - |M1.nodes|] == M2.nodes[M2.input + p - |M1.nodes|];
    }
  }

  /** A node of network1 keeps its type unless it is one of network1's outputs, which become hidden. */
  lemma FuseKindsFront(h: Heap, M1: Network, M2: Network, p: nat)
    requires Wf(h) && Indexed(h, M1) && Indexed(h, M2) && Fuse(h, M1, M2).Ok? && Distinct(M1.nodes)
    requires p < |M1.nodes|
    ensures var r := Fuse(h, M1, M2).value;
      && p < |r.1.nodes| && r.1.nodes[p] == M1.nodes[p]
      && r.0.nodes[M1.nodes[p]].kind == if |M1.nodes| - M1.output <= p then Hidden else h.nodes[M1.nodes[p]].kind
  {
    FuseSteps(h, M1, M2);
    var h1 := Redirect(h, M1, M2, M2.connections, 0).value;
    RetypeMembers(h1, M1.nodes, |M1.nodes| - M1.output, p);
  }

  /** A node of network2 that is not one of network1's keeps its type. */
  lemma FuseKindsBack(h: Heap, M1: Network, M2: Network, n: nat)
    requires Wf(h) && Indexed(h, M1) && Indexed(h, M2) && Fuse(h, M1, M2).Ok?
    requires n < |h.nodes| && forall i | 0 <= i < |M1.nodes| :: M1.nodes[i] != n
    ensures Fuse(h, M1, M2).value.0.nodes[n].kind == h.nodes[n].kind
  {
    FuseSteps(h, M1, M2);
    var h1 := Redirect(h, M1, M2, M2.connections, 0).value;
    RetypeOthers(h1, M1.nodes, |M1.nodes| - M1.output, n);
  }

  /** Node by node, the type each node of the merged network ends up with. */
  lemma FuseKinds(h: Heap, M1: Network, M2: Network, p: nat)
    requires Wf(h) && Indexed(h, M1) && Indexed(h, M2) && Fusable(h, M1, M2)
    requires p < |M1.nodes| + |M2.nodes| - M2.input
    ensures var r := Fuse(h, M1, M2);
      && r.Ok? && p < |r.value.1.nodes|
      && r.value.0.nodes[r.value.1.nodes[p]].kind
           == if p < |M1.nodes| then (if |M1.nodes| - M1.output <= p then Hidden else h.nodes[M1.nodes[p]].kind)
              else h.nodes[M2.nodes[M2.input + p - |M1.nodes|]].kind
  {
    FuseOk(h, M1, M2);
    FuseTail(h, M1, M2);
    if p < |M1.nodes| {
      FuseKindsFront(h, M1, M2, p);
    } else {
      FuseKindsBack(h, M1, M2, M2.nodes[M2.input + p - |M1.nodes|]);
    }
  }

  /**
    The evidently intended merge is laid out again, with network1's
    inputs and network2's outputs.
   */
  lemma FuseFixedLaidOut(h: Heap, M1: Network, M2: Network)
    requires Wf(h) && Indexed(h, M1) && Indexed(h, M2) && Fusable(h, M1, M2)
    ensures var r := FuseFixed(h, M1, M2);
      && r.Ok? && r.value.1.input == M1.input && r.value.1.output == M2.output
      && LaidOut(r.value.0, r.value.1)
  {
    FuseOk(h, M1, M2);
    FuseTail(h, M1, M2);
    var r := FuseFixed(h, M1, M2);
    var R := r.value.1;
    var hr := r.value.0;
    var len1 := |M1.nodes|;
    forall p | 0 <= p < |R.nodes|
      ensures && (hr.nodes[R.nodes[p]].kind == Input <==> p < R.input)
              && (hr.nodes[R.nodes[p]].kind == Output <==> |R.nodes| - R.output <= p)
    {
      FuseKinds(h, M1, M2, p);
    }
  }

  /**
    As written, merge keeps network1's `output`: the result is laid out
    exactly when the two output counts already agree.
   */
  lemma FuseLaidOutIff(h: Heap, M1: Network, M2: Network)
    requires Wf(h) && Indexed(h, M1) && Indexed(h, M2) && Fusable(h, M1, M2)
    ensures var r := Fuse(h, M1, M2);
      && r.Ok? && r.value.1.output == M1.output
      && (LaidOut(r.value.0, r.value.1) <==> M1.output == M2.output)
  {
    FuseFixedLaidOut(h, M1, M2);
    var r := Fuse(h, M1, M2);
    var f := FuseFixed(h, M1, M2);
    if LaidOut(r.value.0, r.value.1) {
      LaidOutUnique(r.value.0, r.value.1.nodes, M1.input, M1.output, M2.output);
    }
  }

  /** The heap of a successful fuse: the redirected heap with network1's outputs retyped. */
  lemma FuseSteps(h: Heap, M1: Network, M2: Network)
    requires Wf(h) && Indexed(h, M1) && Indexed(h, M2) && Fuse(h, M1, M2).Ok?
    ensures var h1 := Redirect(h, M1, M2, M2.connections, 0);
      && h1.Ok? && M1.output <= |M1.nodes|
      && Fuse(h, M1, M2).value.0 == Retype(h1.value, M1.nodes, |M1.nodes| - M1.output, |M1.nodes|)
  {
  }

  /**
    The redirect wires network2's inputs to network1's outputs in reverse
    order: network2's i-th input is now fed from network1's last node
    but i.
   */
  lemma RedirectReverses(h: Heap, M1: Network, M2: Network, k: nat, i: nat)
    requires Wf(h) && IdsBelow(M1.nodes, |h.nodes|) && Indexed(h, M2)
    requires Distinct(M2.connections) && Distinct(M2.nodes) && LaidOut(h, M2) && M2.input <= |M1.nodes|
    requires k < |M2.connections| && i < M2.input && h.conns[M2.connections[k]].from == M2.nodes[i]
    ensures var r := Redirect(h, M1, M2, M2.connections, 0);
      r.Ok? ==> r.value.conns[M2.connections[k]] == h.conns[M2.connections[k]].(from := M1.nodes[|M1.nodes| - 1 - i])
  {
    RedirectMoves(h, M1, M2, M2.connections, 0, k);
    var x := h.conns[M2.connections[k]];
    assert h.nodes[x.from].kind == Input;
    assert IndexOf(M2.nodes, x.from) == i;
    MovedInput(h, M1, M2, x, i);
  }

  /** An input-typed from node at network2 position i moves to network1's last node but i. */
  lemma MovedInput(h: Heap, M1: Network, M2: Network, x: Connection, i: nat)
    requires x.from < |h.nodes| && h.nodes[x.from].kind == Input && IndexOf(M2.nodes, x.from) == i && i < |M1.nodes|
    ensures Moved(h, M1, M2, x) == x.(from := M1.nodes[|M1.nodes| - 1 - i])
  {
  }

  lemma FuseRedirects(h: Heap, M1: Network, M2: Network, k: nat, i: nat)
    requires Wf(h) && Indexed(h, M1) && Indexed(h, M2) && Fusable(h, M1, M2) && Distinct(M2.nodes)
    requires k < |M2.connections| && i < M2.input && h.conns[M2.connections[k]].from == M2.nodes[i]
    ensures var r := Fuse(h, M1, M2);
      r.Ok? && r.value.0.conns[M2.connections[k]] == h.conns[M2.connections[k]].(from := M1.nodes[|M1.nodes| - 1 - i])
  {
    FuseOk(h, M1, M2);
    FuseSteps(h, M1, M2);
    RedirectReverses(h, M1, M2, k, i);
  }

  // ------------------------------------------------------------ the whole merge

  /**
    `Network.merge(network1, network2)` as written: both networks are
    copied through `toJSON` and `fromJSON`, then fused keeping network1's
    `output`.
   */
  function MergeAsWritten(h: Heap, N1: Network, N2: Network): (r: Result<(Heap, Network)>)
    requires Wf(h) && Indexed(h, N1) && Indexed(h, N2)
    ensures r.Err? ==> r.error in {SizeMismatch, Undefined, AlreadyProjecting, NotMember}
  {
    var c1 :- Serialize.FromJson(h, Serialize.ToJson(h, N1));
    var c2 :- Serialize.FromJson(c1.0, Serialize.ToJson(h, N2));
    assert Indexed(c2.0, c1.1);
    Fuse(c2.0, c1.1, c2.1)
  }

  /** The two copies `merge` starts from, made through the corrected `toJSON`. */
  function Copies(h: Heap, N1: Network, N2: Network): (r: Result<(Heap, Network, Network)>)
    requires Wf(h) && Indexed(h, N1) && Indexed(h, N2)
    ensures r.Ok? ==> Wf(r.value.0) && Indexed(r.value.0, r.value.1) && Indexed(r.value.0, r.value.2)
    ensures r.Err? ==> r.error in {Undefined, AlreadyProjecting, NotMember}
  {
    var c1 :- Serialize.FromJson(h, ToJsonStamped(h, N1));
    var c2 :- Serialize.FromJson(c1.0, ToJsonStamped(h, N2));
    assert Indexed(c2.0, c1.1);
    Ok((c2.0, c1.1, c2.1))
  }

  /**
    `Network.merge` with both corrections: the copies are made from
    records whose indices are stamped first, and the merged network takes
    network2's `output`.
   */
  function Merge(h: Heap, N1: Network, N2: Network): (r: Result<(Heap, Network)>)
    requires Wf(h) && Indexed(h, N1) && Indexed(h, N2)
    ensures r.Err? ==> r.error in {SizeMismatch, Undefined, AlreadyProjecting, NotMember}
  {
    var c :- Copies(h, N1, N2);
    FuseFixed(c.0, c.1, c.2)
  }

  /** Positions correspond one to one when the copy's nodes do not repeat. */
  lemma SamePlaceFunctional(N: Network, N2: Network, a1: nat, b1: nat, a2: nat, b2: nat)
    requires Distinct(N2.nodes) && SamePlace(N, N2, a1, b1) && SamePlace(N, N2, a2, b2)
    ensures b1 == b2 ==> a1 == a2
  {
    var i1 :| 0 <= i1 < |N.nodes| && i1 < |N2.nodes| && N.nodes[i1] == a1 && N2.nodes[i1] == b1;
    var i2 :| 0 <= i2 < |N.nodes| && i2 < |N2.nodes| && N.nodes[i2] == a2 && N2.nodes[i2] == b2;
    assert b1 == b2 ==> i1 == i2;
  }

  /**
    A copy of a replayable network holds each connection once, and each
    leaves one of the copy's own nodes.
   */
  lemma MirrorConnections(h: Heap, N: Network, h2: Heap, N2: Network)
    requires Replayable(h, N) && Wf(h2) && Indexed(h2, N2) && Distinct(N2.nodes) && Mirrors(h, N, h2, N2)
    ensures Distinct(N2.connections)
    ensures forall k | 0 <= k < |N2.connections| :: h2.conns[N2.connections[k]].from in N2.nodes
  {
    forall k | 0 <= k < |N2.connections| ensures h2.conns[N2.connections[k]].from in N2.nodes {
      var i :| 0 <= i < |N.nodes| && i < |N2.nodes| && N.nodes[i] == h.conns[N.connections[k]].from
                && N2.nodes[i] == h2.conns[N2.connections[k]].from;
    }
    forall k1, k2 | 0 <= k1 < k2 < |N2.connections| ensures N2.connections[k1] != N2.connections[k2] {
      var x1, x2 := h.conns[N.connections[k1]], h.conns[N.connections[k2]];
      var y1, y2 := h2.conns[N2.connections[k1]], h2.conns[N2.connections[k2]];
      SamePlaceFunctional(N, N2, x1.from, y1.from, x2.from, y2.from);
      SamePlaceFunctional(N, N2, x1.to, y1.to, x2.to, y2.to);
    }
  }

  /** A layout survives any change that keeps the types of the nodes involved. */
  lemma LaidOutKinds(h: Heap, N: Network, h2: Heap)
    requires IdsBelow(N.nodes, |h.nodes|) && LaidOut(h, N) && |h.nodes| <= |h2.nodes|
    requires forall n | 0 <= n < |h.nodes| :: h2.nodes[n].kind == h.nodes[n].kind
    ensures IdsBelow(N.nodes, |h2.nodes|) && LaidOut(h2, N)
  {
  }

  /** A copy `fromJSON` made on top of h0 appends its nodes in order and leaves older nodes' types alone. */
  lemma CopyPlaced(h: Heap, N: Network, h0: Heap)
    requires Wf(h) && Indexed(h, N) && Wf(h0) && Serialize.FromJson(h0, ToJsonStamped(h, N)).Ok?
    ensures var c := Serialize.FromJson(h0, ToJsonStamped(h, N)).value;
      && |c.0.nodes| == |h0.nodes| + |N.nodes|
      && (forall i | 0 <= i < |c.1.nodes| :: c.1.nodes[i] == |h0.nodes| + i)
      && (forall n | 0 <= n < |h0.nodes| :: c.0.nodes[n].kind == h0.nodes[n].kind)
  {
  }

  /** The copy of a replayable network is its mirror image, with its nodes appended in order. */
  lemma CopyShape(h: Heap, N: Network, h0: Heap)
    requires Replayable(h, N) && Wf(h0)
    ensures var c := Serialize.FromJson(h0, ToJsonStamped(h, N));
      && c.Ok? && Mirrors(h, N, c.value.0, c.value.1)
      && |c.value.0.nodes| == |h0.nodes| + |N.nodes|
      && (forall i | 0 <= i < |c.value.1.nodes| :: c.value.1.nodes[i] == |h0.nodes| + i)
      && (forall n | 0 <= n < |h0.nodes| :: c.value.0.nodes[n].kind == h0.nodes[n].kind)
  {
    RoundTripStamped(h, N, h0);
    CopyPlaced(h, N, h0);
  }

  /** The copy of a laid-out network is laid out, holds each connection once, and only from its own nodes. */
  lemma CopyLinks(h: Heap, N: Network, h0: Heap)
    requires Replayable(h, N) && LaidOut(h, N) && Wf(h0)
    ensures var c := Serialize.FromJson(h0, ToJsonStamped(h, N));
      && c.Ok? && LaidOut(c.value.0, c.value.1)
      && Distinct(c.value.1.connections)
      && (forall k | 0 <= k < |c.value.1.connections| :: c.value.0.conns[c.value.1.connections[k]].from in c.value.1.nodes)
  {
    CopyShape(h, N, h0);
    var c := Serialize.FromJson(h0, ToJsonStamped(h, N)).value;
    MirrorLaidOut(h, N, c.0, c.1);
    assert Distinct(c.1.nodes);
    MirrorConnections(h, N, c.0, c.1);
  }

  /** Two laid-out networks on consecutive, fresh runs of nodes are fusable. */
  lemma FusableParts(h: Heap, M1: Network, M2: Network, b1: nat, b2: nat)
    requires Wf(h) && Indexed(h, M1) && Indexed(h, M2)
    requires forall i | 0 <= i < |M1.nodes| :: M1.nodes[i] == b1 + i
    requires forall j | 0 <= j < |M2.nodes| :: M2.nodes[j] == b2 + j
    requires b1 + |M1.nodes| <= b2
    requires Distinct(M2.connections)
    requires forall k | 0 <= k < |M2.connections| :: h.conns[M2.connections[k]].from in M2.nodes
    requires LaidOut(h, M1) && LaidOut(h, M2) && M1.output == M2.input
    ensures Fusable(h, M1, M2)
  {
  }

  /**
    (h2, M) is a laid-out copy of N made on top of h0: the same sizes, its
    nodes appended in order after h0's, each connection once and only from
    its own nodes, and h0's nodes keeping their types.
   */
  predicate CopyGood(h0: Heap, N: Network, h2: Heap, M: Network)
    requires Wf(h2) && Indexed(h2, M)
  {
    && M.input == N.input && M.output == N.output
    && |M.nodes| == |N.nodes| && |M.connections| == |N.connections|
    && |h2.nodes| == |h0.nodes| + |N.nodes|
    && (forall i | 0 <= i < |M.nodes| :: M.nodes[i] == |h0.nodes| + i)
    && (forall n | 0 <= n < |h0.nodes| :: h2.nodes[n].kind == h0.nodes[n].kind)
    && LaidOut(h2, M) && Distinct(M.connections)
    && (forall k | 0 <= k < |M.connections| :: h2.conns[M.connections[k]].from in M.nodes)
  }

  lemma CopyGoodOf(h: Heap, N: Network, h0: Heap)
    requires Replayable(h, N) && LaidOut(h, N) && Wf(h0)
    ensures var c := Serialize.FromJson(h0, ToJsonStamped(h, N));
      c.Ok? && CopyGood(h0, N, c.value.0, c.value.1)
  {
    CopyShape(h, N, h0);
    CopyLinks(h, N, h0);
  }

  /** Both copies are good, network1's surviving the second copy. */
  predicate CopiesGood(h: Heap, N1: Network, N2: Network, c: (Heap, Network, Network))
    requires Wf(c.0) && Indexed(c.0, c.1) && Indexed(c.0, c.2)
  {
    && c.1.input == N1.input && c.1.output == N1.output
    && c.2.input == N2.input && c.2.output == N2.output
    && |c.1.nodes| == |N1.nodes| && |c.2.nodes| == |N2.nodes|
    && |c.1.connections| == |N1.connections| && |c.2.connections| == |N2.connections|
    && (forall i | 0 <= i < |c.1.nodes| :: c.1.nodes[i] == |h.nodes| + i)
    && (forall i | 0 <= i < |c.2.nodes| :: c.2.nodes[i] == |h.nodes| + |N1.nodes| + i)
    && LaidOut(c.0, c.1) && LaidOut(c.0, c.2)
    && Distinct(c.2.connections)
    && (forall k | 0 <= k < |c.2.connections| :: c.0.conns[c.2.connections[k]].from in c.2.nodes)
  }

  /** Two good copies, one made after the other. */
  lemma CopiesGoodOf(h: Heap, N1: Network, N2: Network, h1: Heap, M1: Network, h2: Heap, M2: Network)
    requires Wf(h1) && Indexed(h1, M1) && Wf(h2) && Indexed(h2, M2) && Indexed(h2, M1)
    requires CopyGood(h, N1, h1, M1) && CopyGood(h1, N2, h2, M2)
    ensures CopiesGood(h, N1, N2, (h2, M1, M2))
  {
    LaidOutKinds(h1, M1, h2);
  }

  /** When both copies succeed, `Copies` returns the second heap and the two copies. */
  lemma CopiesAre(h: Heap, N1: Network, N2: Network)
    requires Wf(h) && Indexed(h, N1) && Indexed(h, N2)
    requires Serialize.FromJson(h, ToJsonStamped(h, N1)).Ok?
    requires Serialize.FromJson(Serialize.FromJson(h, ToJsonStamped(h, N1)).value.0, ToJsonStamped(h, N2)).Ok?
    ensures var c1 := Serialize.FromJson(h, ToJsonStamped(h, N1)).value;
      var c2 := Serialize.FromJson(c1.0, ToJsonStamped(h, N2)).value;
      Copies(h, N1, N2) == Ok((c2.0, c1.1, c2.1))
  {
  }

  /** Copying replayable, laid-out networks succeeds with good copies. */
  lemma CopiesFacts(h: Heap, N1: Network, N2: Network)
    requires Replayable(h, N1) && Replayable(h, N2) && LaidOut(h, N1) && LaidOut(h, N2)
    ensures var c := Copies(h, N1, N2); c.Ok? && CopiesGood(h, N1, N2, c.value)
  {
    CopyGoodOf(h, N1, h);
    var c1 := Serialize.FromJson(h, ToJsonStamped(h, N1)).value;
    CopyGoodOf(h, N2, c1.0);
    var c2 := Serialize.FromJson(c1.0, ToJsonStamped(h, N2)).value;
    assert Indexed(c2.0, c1.1);
    CopiesGoodOf(h, N1, N2, c1.0, c1.1, c2.0, c2.1);
    CopiesAre(h, N1, N2);
  }

  /** Good copies of networks of matching sizes are fusable. */
  lemma CopiesFusable(h: Heap, N1: Network, N2: Network, c: (Heap, Network, Network))
    requires Wf(c.0) && Indexed(c.0, c.1) && Indexed(c.0, c.2)
    requires CopiesGood(h, N1, N2, c) && N1.output == N2.input
    ensures Fusable(c.0, c.1, c.2)
  {
    FusableParts(c.0, c.1, c.2, |h.nodes|, |h.nodes| + |N1.nodes|);
  }

  /**
    Merging replayable, laid-out networks whose sizes match succeeds, and
    the merged network is laid out: network1's inputs, network2's
    outputs, network2's input nodes gone and every connection kept.
   */
  lemma MergeLaidOut(h: Heap, N1: Network, N2: Network)
    requires Replayable(h, N1) && Replayable(h, N2) && LaidOut(h, N1) && LaidOut(h, N2)
    requires N1.output == N2.input
    ensures var r := Merge(h, N1, N2);
      && r.Ok? && Wf(r.value.0) && Indexed(r.value.0, r.value.1) && LaidOut(r.value.0, r.value.1)
      && r.value.1.input == N1.input && r.value.1.output == N2.output
      && |r.value.1.nodes| == |N1.nodes| + |N2.nodes| - N2.input
      && |r.value.1.connections| == |N1.connections| + |N2.connections|
  {
    CopiesFacts(h, N1, N2);
    var c := Copies(h, N1, N2).value;
    CopiesFusable(h, N1, N2, c);
    FuseFixedLaidOut(c.0, c.1, c.2);
    FuseTail(c.0, c.1, c.2);
  }

  /** Merging throws when network1's output size differs from network2's input size. */
  lemma MergeMismatch(h: Heap, N1: Network, N2: Network)
    requires Replayable(h, N1) && Replayable(h, N2) && LaidOut(h, N1) && LaidOut(h, N2)
    ensures N1.output != N2.input <==> Merge(h, N1, N2) == Err(SizeMismatch)
  {
    CopiesFacts(h, N1, N2);
  }

  /**
    As written, merging a network whose first connection leaves a node
    that was never given an `index` (any fresh `new Network` with
    connections) throws while copying.
   */
  lemma MergeAsWrittenThrows(h: Heap, N1: Network, N2: Network)
    requires Wf(h) && Indexed(h, N1) && Indexed(h, N2) && N1.connections != []
    requires h.conns[N1.connections[0]].from < |h.nodes|
    requires h.nodes[h.conns[N1.connections[0]].from].index == None
    ensures MergeAsWritten(h, N1, N2) == Err(Undefined)
  {
    ToJsonThrows(h, N1, h);
  }
}
