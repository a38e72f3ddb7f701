/**
  The `architect` builders: `Construct`, which turns a list of groups and
  nodes into a network by sorting out its input and output nodes, the
  `Perceptron` front end, and `Random`, which grows a network by mutation.
 */
module Architect {
  import opened Base
  import opened Methods
  import opened Nodes
  import opened Links
  import opened Networks
  import Mutations
  import Constructor
  import Groups
  import Merging

  // ------------------------------------------------------------ the list

  /** An entry of the list `Construct` takes: a group or a single node. */
  datatype Part = Grouped(group: Groups.Group) | Lone(node: nat)

  function PartNodes(p: Part): seq<nat> {
    match p
    case Grouped(G) => G.nodes
    case Lone(n) => [n]
  }

  /** The nodes of the list, part by part, in order. */
  function ListedNodes(list: seq<Part>): seq<nat> {
    if list == [] then [] else PartNodes(list[0]) + ListedNodes(list[1..])
  }

  /** Every node of every part is listed, and nothing else is. */
  lemma {:induction false} ListedNodesHold(list: seq<Part>, x: nat)
    ensures x in ListedNodes(list) <==> exists i | 0 <= i < |list| :: x in PartNodes(list[i])
    decreases |list|
  {
    if list != [] {
      ListedNodesHold(list[1..], x);
      if i :| 0 <= i < |list| && x in PartNodes(list[i]) {
        if i > 0 { assert list[1..][i - 1] == list[i]; }
      }
      if i :| 0 <= i < |list[1..]| && x in PartNodes(list[1..][i]) {
        assert list[1..][i] == list[i + 1];
      }
    }
  }

  // ------------------------------------------------------------ the roles

  /** Where the partition puts a node. */
  datatype Role = ToOutput | ToInput | Stays

  /**
    A node typed output, or one that neither projects nor gates, becomes
    an output; otherwise a node typed input, or one nothing projects to,
    becomes an input; the rest keep their type and their place.
   */
  function RoleOf(x: Node): Role {
    if x.kind == Output || |x.outConns| + |x.gated| == 0 then ToOutput
    else if x.kind == Input || |x.inConns| == 0 then ToInput
    else Stays
  }

  /** The node as the partition leaves it: typed after its role, everything else kept. */
  function Retyped(x: Node): (y: Node)
    ensures y == x.(kind := y.kind)
    ensures y.kind == Output <==> RoleOf(x) == ToOutput
    ensures y.kind == Input <==> RoleOf(x) == ToInput
    ensures RoleOf(y) == RoleOf(x)
  {
    match RoleOf(x)
    case ToOutput => x.(kind := Output)
    case ToInput => x.(kind := Input)
    case Stays => x
  }

  /** Retyping a second time changes nothing, so a node listed twice ends up the same. */
  lemma RetypedIdempotent(x: Node)
    ensures Retyped(Retyped(x)) == Retyped(x)
  {
  }

  /** The nodes of `ns` with role `role`, in list order: the reference the partition is measured against. */
  function Keep(h: Heap, ns: seq<nat>, role: Role): (r: seq<nat>)
    requires IdsBelow(ns, |h.nodes|)
    ensures |r| <= |ns|
  {
    if ns == [] then []
    else (if RoleOf(h.nodes[ns[0]]) == role then [ns[0]] else []) + Keep(h, ns[1..], role)
  }

  /** Keep holds exactly the listed nodes of that role. */
  lemma {:induction false} KeepHas(h: Heap, ns: seq<nat>, role: Role, x: nat)
    requires IdsBelow(ns, |h.nodes|)
    ensures x in Keep(h, ns, role) <==> x in ns && RoleOf(h.nodes[x]) == role
    decreases |ns|
  {
    if ns != [] {
      KeepHas(h, ns[1..], role, x);
      assert x in ns <==> x == ns[0] || x in ns[1..];
    }
  }

  lemma {:induction false} KeepSnoc(h: Heap, ns: seq<nat>, x: nat, role: Role)
    requires IdsBelow(ns, |h.nodes|) && x < |h.nodes|
    ensures Keep(h, ns + [x], role) == Keep(h, ns, role) + (if RoleOf(h.nodes[x]) == role then [x] else [])
    decreases |ns|
  {
    if ns != [] {
      assert (ns + [x])[1..] == ns[1..] + [x];
      KeepSnoc(h, ns[1..], x, role);
    } else {
      assert [x][1..] == [];
    }
  }

  /** Keep reads nothing of a node but its role. */
  lemma {:induction false} KeepSameRoles(h: Heap, h2: Heap, ns: seq<nat>, role: Role)
    requires IdsBelow(ns, |h.nodes|) && IdsBelow(ns, |h2.nodes|)
    requires forall i | 0 <= i < |ns| :: RoleOf(h2.nodes[ns[i]]) == RoleOf(h.nodes[ns[i]])
    ensures Keep(h2, ns, role) == Keep(h, ns, role)
    decreases |ns|
  {
    if ns != [] {
      KeepSameRoles(h, h2, ns[1..], role);
    }
  }

  /** Every node has exactly one role, so the three kept lists share out the list. */
  lemma {:induction false} KeepShares(h: Heap, ns: seq<nat>)
    requires IdsBelow(ns, |h.nodes|)
    ensures multiset(Keep(h, ns, ToInput)) + multiset(Keep(h, ns, Stays)) + multiset(Keep(h, ns, ToOutput)) == multiset(ns)
    decreases |ns|
  {
    if ns != [] {
      KeepShares(h, ns[1..]);
      assert ns == [ns[0]] + ns[1..];
    }
  }

  function Reverse(s: seq<nat>): (r: seq<nat>)
    ensures |r| == |s| && forall i | 0 <= i < |s| :: r[i] == s[|s| - 1 - i]
  {
    if s == [] then [] else Reverse(s[1..]) + [s[0]]
  }

  lemma ReverseSnoc(s: seq<nat>, x: nat)
    ensures Reverse(s + [x]) == [x] + Reverse(s)
  {
    var a, b := Reverse(s + [x]), [x] + Reverse(s);
    assert |a| == |b|;
    forall i | 0 <= i < |a| ensures a[i] == b[i] {
      if i > 0 { assert a[i] == s[|s| - i]; }
    }
  }

  lemma ReverseMultiset(s: seq<nat>)
    ensures multiset(Reverse(s)) == multiset(s)
  {
    if s != [] {
      ReverseMultiset(s[1..]);
      assert s == [s[0]] + s[1..];
    }
  }

  // ------------------------------------------------------- the partition

  /** The partition's three lists and the arena with the nodes retyped. */
  datatype Partition = Partition(h: Heap, ins: seq<nat>, rest: seq<nat>, outs: seq<nat>)

  /**
    The partition loop of `Construct`, from the last listed node down to
    the first: a node is retyped after its role and pushed onto `outputs`
    or `inputs`, or left in place. Pushing from the end leaves both
    pushed lists in reverse list order.
   */
  function Sort(h: Heap, ns: seq<nat>): (r: Partition)
    requires Wf(h) && IdsBelow(ns, |h.nodes|)
    ensures Wf(r.h) && r.h.conns == h.conns && RetypedAt(h, r.h, ns)
    ensures r.ins == Reverse(Keep(h, ns, ToInput))
    ensures r.rest == Keep(h, ns, Stays)
    ensures r.outs == Reverse(Keep(h, ns, ToOutput))
    decreases |ns|
  {
    if ns == [] then Partition(h, [], [], [])
    else
      var last := |ns| - 1;
      var x := ns[last];
      assert NodeWf(h.nodes[x], |h.conns|);
      var h1 := PutNode(h, x, Retyped(h.nodes[x]));
      var s := Sort(h1, ns[..last]);
      RetypedIdempotent(h.nodes[x]);
      assert ns == ns[..last] + [x];
      SortRoles(h, h1, ns[..last], x);
      RetypedAtStep(h, h1, s.h, ns[..last], x);
      match RoleOf(h.nodes[x])
      case ToOutput => s.(outs := [x] + s.outs)
      case ToInput => s.(ins := [x] + s.ins)
      case Stays => s.(rest := s.rest + [x])
  }

  /** `h2` is `h` with the nodes of `ns` retyped after their roles and every other node kept. */
  predicate RetypedAt(h: Heap, h2: Heap, ns: seq<nat>) {
    && |h2.nodes| == |h.nodes|
    && forall y | 0 <= y < |h.nodes| :: h2.nodes[y] == if y in ns then Retyped(h.nodes[y]) else h.nodes[y]
  }

  lemma RetypedAtStep(h: Heap, h1: Heap, h2: Heap, pre: seq<nat>, x: nat)
    requires x < |h.nodes| && h1.nodes == h.nodes[x := Retyped(h.nodes[x])] && RetypedAt(h1, h2, pre)
    ensures RetypedAt(h, h2, pre + [x])
  {
    RetypedIdempotent(h.nodes[x]);
  }

  /** One step of the loop moves `x` to the lists its role names, and the prefix keeps its roles. */
  lemma SortRoles(h: Heap, h1: Heap, pre: seq<nat>, x: nat)
    requires IdsBelow(pre, |h.nodes|) && x < |h.nodes| && h1.nodes == h.nodes[x := Retyped(h.nodes[x])]
    ensures forall role :: (Reverse(Keep(h, pre + [x], role)) ==
      (if RoleOf(h.nodes[x]) == role then [x] else []) + Reverse(Keep(h1, pre, role)))
    ensures forall role :: Keep(h, pre + [x], role) == Keep(h1, pre, role) + (if RoleOf(h.nodes[x]) == role then [x] else [])
  {
    forall role ensures Keep(h, pre + [x], role) == Keep(h1, pre, role) + (if RoleOf(h.nodes[x]) == role then [x] else []) {
      KeepSnoc(h, pre, x, role);
      KeepSameRoles(h, h1, pre, role);
    }
    forall role ensures Reverse(Keep(h, pre + [x], role)) ==
      (if RoleOf(h.nodes[x]) == role then [x] else []) + Reverse(Keep(h1, pre, role))
    {
      if RoleOf(h.nodes[x]) == role {
        ReverseSnoc(Keep(h1, pre, role), x);
      } else {
        assert Keep(h, pre + [x], role) == Keep(h1, pre, role);
      }
    }
  }

  // ------------------------------------------------------------ the indices

  /** The nodes' outgoing lists (or, with `gated`, their gated lists), one after the other. */
  function Gather(h: Heap, ns: seq<nat>, gated: bool): (r: seq<nat>)
    requires Wf(h) && IdsBelow(ns, |h.nodes|)
    ensures IdsBelow(r, |h.conns|)
    ensures forall c :: c in r <==> Listed(h, ns, gated, c)
  {
    if ns == [] then []
    else
      assert NodeWf(h.nodes[ns[0]], |h.conns|);
      var rest := Gather(h, ns[1..], gated);
      ExistsShift(h, ns, gated);
      ListOf(h.nodes[ns[0]], gated) + rest
  }

  function ListOf(x: Node, gated: bool): seq<nat> {
    if gated then x.gated else x.outConns
  }

  /** Some node of `ns` holds `c` in the list `gated` selects. */
  predicate Listed(h: Heap, ns: seq<nat>, gated: bool, c: nat)
    requires IdsBelow(ns, |h.nodes|)
  {
    exists i | 0 <= i < |ns| :: c in ListOf(h.nodes[ns[i]], gated)
  }

  lemma ExistsShift(h: Heap, ns: seq<nat>, gated: bool)
    requires IdsBelow(ns, |h.nodes|) && ns != []
    ensures forall c :: Listed(h, ns, gated, c) <==> c in ListOf(h.nodes[ns[0]], gated) || Listed(h, ns[1..], gated, c)
  {
    forall c ensures Listed(h, ns, gated, c) <==> c in ListOf(h.nodes[ns[0]], gated) || Listed(h, ns[1..], gated, c) {
      if i :| 0 <= i < |ns| && c in ListOf(h.nodes[ns[i]], gated) {
        if i > 0 { assert ns[1..][i - 1] == ns[i]; }
      }
      if i :| 0 <= i < |ns[1..]| && c in ListOf(h.nodes[ns[1..][i]], gated) {
        assert ns[1..][i] == ns[i + 1];
      }
    }
  }

  /** Some node of `ns` has `c` as its self-connection, of non-zero weight. */
  predicate LiveSelf(h: Heap, ns: seq<nat>, c: nat)
    requires Wf(h) && IdsBelow(ns, |h.nodes|)
  {
    exists i | 0 <= i < |ns| :: c == h.nodes[ns[i]].selfConn && SelfWeight(h, ns[i]) != 0.0
  }

  /** The nodes' self-connections of non-zero weight, in node order. */
  function Selfs(h: Heap, ns: seq<nat>): (r: seq<nat>)
    requires Wf(h) && IdsBelow(ns, |h.nodes|)
    ensures IdsBelow(r, |h.conns|)
    ensures forall c :: c in r <==> LiveSelf(h, ns, c)
  {
    if ns == [] then []
    else
      assert NodeWf(h.nodes[ns[0]], |h.conns|);
      var rest := Selfs(h, ns[1..]);
      LiveSelfShift(h, ns);
      (if SelfWeight(h, ns[0]) != 0.0 then [h.nodes[ns[0]].selfConn] else []) + rest
  }

  lemma LiveSelfShift(h: Heap, ns: seq<nat>)
    requires Wf(h) && IdsBelow(ns, |h.nodes|) && ns != []
    ensures forall c :: LiveSelf(h, ns, c) <==>
      (c == h.nodes[ns[0]].selfConn && SelfWeight(h, ns[0]) != 0.0) || LiveSelf(h, ns[1..], c)
  {
    forall c ensures LiveSelf(h, ns, c) <==>
      (c == h.nodes[ns[0]].selfConn && SelfWeight(h, ns[0]) != 0.0) || LiveSelf(h, ns[1..], c)
    {
      if i :| 0 <= i < |ns| && c == h.nodes[ns[i]].selfConn && SelfWeight(h, ns[i]) != 0.0 {
        if i > 0 { assert ns[1..][i - 1] == ns[i]; }
      }
      if i :| 0 <= i < |ns[1..]| && c == h.nodes[ns[1..][i]].selfConn && SelfWeight(h, ns[1..][i]) != 0.0 {
        assert ns[1..][i] == ns[i + 1];
      }
    }
  }

  // ------------------------------------------------------------ Construct

  /**
    `architect.Construct(list)`: the listed nodes are partitioned and
    retyped; with no input or no output node it throws; otherwise the
    network's nodes are the inputs, then the others in list order, then
    the outputs, and its indices collect the nodes' outgoing, gated and
    live self-connections.
   */
  function Construct(h: Heap, list: seq<Part>): (r: Result<(Heap, Network)>)
    requires Wf(h) && IdsBelow(ListedNodes(list), |h.nodes|)
    ensures r.Err? ==> r.error == NoInputOutput
    ensures r.Ok? ==> Wf(r.value.0) && Indexed(r.value.0, r.value.1) && r.value.0.conns == h.conns
    ensures r.Ok? ==> RetypedAt(h, r.value.0, ListedNodes(list))
    ensures r.Ok? ==>
      var h2, N := r.value.0, r.value.1;
      && N.gates == Gather(h2, N.nodes, true)
      && N.connections == Gather(h2, N.nodes, false)
      && N.selfconns == Selfs(h2, N.nodes)
      && N.dropout == 0.0
  {
    var ns := ListedNodes(list);
    var s := Sort(h, ns);
    var nodes := s.ins + s.rest + s.outs;
    ArrangedBelow(h, ns);
    if |s.ins| == 0 || |s.outs| == 0 then Err(NoInputOutput)
    else Ok((s.h, Network(|s.ins|, |s.outs|, nodes, Gather(s.h, nodes, false), Gather(s.h, nodes, true), Selfs(s.h, nodes), 0.0)))
  }

  /** The order `Construct` gives the listed nodes: inputs, the rest in list order, outputs. */
  function Arranged(h: Heap, ns: seq<nat>): seq<nat>
    requires IdsBelow(ns, |h.nodes|)
  {
    Reverse(Keep(h, ns, ToInput)) + Keep(h, ns, Stays) + Reverse(Keep(h, ns, ToOutput))
  }

  /** The arrangement is a permutation of the list. */
  lemma ArrangedBelow(h: Heap, ns: seq<nat>)
    requires IdsBelow(ns, |h.nodes|)
    ensures multiset(Arranged(h, ns)) == multiset(ns)
    ensures IdsBelow(Arranged(h, ns), |h.nodes|)
  {
    KeepShares(h, ns);
    ReverseMultiset(Keep(h, ns, ToInput));
    ReverseMultiset(Keep(h, ns, ToOutput));
    var a := Arranged(h, ns);
    forall p | 0 <= p < |a| ensures a[p] < |h.nodes| {
      assert a[p] in multiset(a);
    }
  }

  /** `Construct` throws exactly when no listed node turns out an input, or none an output. */
  lemma ConstructThrows(h: Heap, list: seq<Part>)
    requires Wf(h) && IdsBelow(ListedNodes(list), |h.nodes|)
    ensures Construct(h, list).Err? <==>
      || (forall x | x in ListedNodes(list) :: RoleOf(h.nodes[x]) != ToInput)
      || (forall x | x in ListedNodes(list) :: RoleOf(h.nodes[x]) != ToOutput)
  {
    KeepEmpty(h, ListedNodes(list), ToInput);
    KeepEmpty(h, ListedNodes(list), ToOutput);
  }

  /**
    A constructed network lists the inputs first, then the others in list
    order, then the outputs; `input` and `output` count the first and the
    last block, and the types agree with the blocks: the network is laid
    out as the library expects of every network.
   */
  lemma ConstructLaysOut(h: Heap, list: seq<Part>)
    requires Wf(h) && IdsBelow(ListedNodes(list), |h.nodes|)
    requires Construct(h, list).Ok?
    ensures var ns, N := ListedNodes(list), Construct(h, list).value.1;
      && N.nodes == Arranged(h, ns)
      && N.input == |Keep(h, ns, ToInput)| > 0
      && N.output == |Keep(h, ns, ToOutput)| > 0
      && multiset(N.nodes) == multiset(ns)
    ensures Merging.LaidOut(Construct(h, list).value.0, Construct(h, list).value.1)
  {
    var ns := ListedNodes(list);
    ArrangedBelow(h, ns);
    ArrangedLaidOut(h, Construct(h, list).value.0, ns);
  }

  /** A constructed network has as many nodes as were listed. */
  lemma ConstructKeepsCount(h: Heap, list: seq<Part>)
    requires Wf(h) && IdsBelow(ListedNodes(list), |h.nodes|)
    ensures Construct(h, list).Ok? ==> |Construct(h, list).value.1.nodes| == |ListedNodes(list)|
  {
    ArrangedBelow(h, ListedNodes(list));
    assert |Arranged(h, ListedNodes(list))| == |multiset(Arranged(h, ListedNodes(list)))|;
  }

  /** Once the listed nodes are retyped, their arrangement is laid out. */
  lemma ArrangedLaidOut(h: Heap, h2: Heap, ns: seq<nat>)
    requires IdsBelow(ns, |h.nodes|) && RetypedAt(h, h2, ns)
    ensures IdsBelow(Arranged(h, ns), |h2.nodes|)
    ensures Merging.LaidOutAs(h2, Arranged(h, ns), |Keep(h, ns, ToInput)|, |Keep(h, ns, ToOutput)|)
  {
    ArrangedBelow(h, ns);
    var a := Arranged(h, ns);
    forall p | 0 <= p < |a|
      ensures && (h2.nodes[a[p]].kind == Input <==> p < |Keep(h, ns, ToInput)|)
              && (h2.nodes[a[p]].kind == Output <==> |a| - |Keep(h, ns, ToOutput)| <= p)
    {
      ArrangedRoleAt(h, ns, p);
      assert a[p] in multiset(ns);
      assert h2.nodes[a[p]] == Retyped(h.nodes[a[p]]);
    }
  }

  /** The role of the node at each position of the arrangement: the block it sits in. */
  lemma ArrangedRoleAt(h: Heap, ns: seq<nat>, p: nat)
    requires IdsBelow(ns, |h.nodes|) && p < |Arranged(h, ns)|
    ensures Arranged(h, ns)[p] < |h.nodes|
    ensures RoleOf(h.nodes[Arranged(h, ns)[p]]) ==
      if p < |Keep(h, ns, ToInput)| then ToInput
      else if p < |Keep(h, ns, ToInput)| + |Keep(h, ns, Stays)| then Stays
      else ToOutput
  {
    var i, m := |Keep(h, ns, ToInput)|, |Keep(h, ns, Stays)|;
    if p < i {
      InputSlot(h, ns, p);
      KeptRole(h, ns, ToInput, i - 1 - p);
    } else if p < i + m {
      StaySlot(h, ns, p);
      KeptRole(h, ns, Stays, p - i);
    } else {
      OutputSlot(h, ns, p);
      KeptRole(h, ns, ToOutput, |Keep(h, ns, ToOutput)| - 1 - (p - i - m));
    }
  }

  /** The input block holds the inputs in reverse list order. */
  lemma InputSlot(h: Heap, ns: seq<nat>, p: nat)
    requires IdsBelow(ns, |h.nodes|) && p < |Keep(h, ns, ToInput)|
    ensures p < |Arranged(h, ns)|
    ensures Arranged(h, ns)[p] == Keep(h, ns, ToInput)[|Keep(h, ns, ToInput)| - 1 - p]
  {
    var ins, rest, outs := Reverse(Keep(h, ns, ToInput)), Keep(h, ns, Stays), Reverse(Keep(h, ns, ToOutput));
    assert Arranged(h, ns) == ins + (rest + outs);
    assert ins[p] == Keep(h, ns, ToInput)[|Keep(h, ns, ToInput)| - 1 - p];
  }

  /** The middle block holds the other nodes in list order. */
  lemma StaySlot(h: Heap, ns: seq<nat>, p: nat)
    requires IdsBelow(ns, |h.nodes|)
    requires |Keep(h, ns, ToInput)| <= p < |Keep(h, ns, ToInput)| + |Keep(h, ns, Stays)|
    ensures p < |Arranged(h, ns)|
    ensures Arranged(h, ns)[p] == Keep(h, ns, Stays)[p - |Keep(h, ns, ToInput)|]
  {
    var ins, rest, outs := Reverse(Keep(h, ns, ToInput)), Keep(h, ns, Stays), Reverse(Keep(h, ns, ToOutput));
    assert Arranged(h, ns) == (ins + rest) + outs;
    assert (ins + rest)[p] == rest[p - |ins|];
  }

  /** The output block holds the outputs in reverse list order. */
  lemma OutputSlot(h: Heap, ns: seq<nat>, p: nat)
    requires IdsBelow(ns, |h.nodes|)
    requires |Keep(h, ns, ToInput)| + |Keep(h, ns, Stays)| <= p < |Arranged(h, ns)|
    ensures var q := p - |Keep(h, ns, ToInput)| - |Keep(h, ns, Stays)|;
      q < |Keep(h, ns, ToOutput)| && Arranged(h, ns)[p] == Keep(h, ns, ToOutput)[|Keep(h, ns, ToOutput)| - 1 - q]
  {
    var ins, rest, outs := Reverse(Keep(h, ns, ToInput)), Keep(h, ns, Stays), Reverse(Keep(h, ns, ToOutput));
    assert Arranged(h, ns) == (ins + rest) + outs;
    assert Arranged(h, ns)[p] == outs[p - |ins + rest|];
  }

  lemma KeptRole(h: Heap, ns: seq<nat>, role: Role, k: nat)
    requires IdsBelow(ns, |h.nodes|) && k < |Keep(h, ns, role)|
    ensures Keep(h, ns, role)[k] < |h.nodes| && RoleOf(h.nodes[Keep(h, ns, role)[k]]) == role
  {
    KeepHas(h, ns, role, Keep(h, ns, role)[k]);
  }

  lemma ThreeAt(a: seq<nat>, b: seq<nat>, c: seq<nat>, p: nat)
    requires p < |a| + |b| + |c|
    ensures (a + b + c)[p] == if p < |a| then a[p] else if p < |a| + |b| then b[p - |a|] else c[p - |a| - |b|]
  {
  }

  lemma KeepEmpty(h: Heap, ns: seq<nat>, role: Role)
    requires IdsBelow(ns, |h.nodes|)
    ensures |Reverse(Keep(h, ns, role))| == 0 <==> forall x | x in ns :: RoleOf(h.nodes[x]) != role
  {
    if |Keep(h, ns, role)| > 0 {
      KeepHas(h, ns, role, Keep(h, ns, role)[0]);
    }
    if x :| x in ns && RoleOf(h.nodes[x]) == role {
      KeepHas(h, ns, role, x);
    }
  }

  // ------------------------------------------------------------ Perceptron

  function Sum(sizes: seq<nat>): nat {
    if sizes == [] then 0 else sizes[0] + Sum(sizes[1..])
  }

  /** The groups as list entries. */
  function Parts(gs: seq<Groups.Group>): (r: seq<Part>)
    ensures |r| == |gs| && forall k | 0 <= k < |gs| :: r[k] == Grouped(gs[k])
  {
    if gs == [] then [] else [Grouped(gs[0])] + Parts(gs[1..])
  }

  /** The groups hold the given numbers of nodes, all of them in the arena. */
  predicate Sized(gs: seq<Groups.Group>, sizes: seq<nat>, n: nat) {
    && |gs| == |sizes|
    && forall k | 0 <= k < |gs| :: |gs[k].nodes| == sizes[k] && IdsBelow(gs[k].nodes, n)
  }

  /** `new Group(size)`, seen from the arena. */
  function NewLayer(h: Heap, size: nat, draw: nat -> real): (r: (Heap, Groups.Group))
    requires Wf(h)
    ensures Wf(r.0) && |r.0.nodes| == |h.nodes| + size && |r.1.nodes| == size && IdsBelow(r.1.nodes, |r.0.nodes|)
  {
    Groups.NewGroup(h, size, draw)
  }

  lemma SizedCons(G: Groups.Group, gs: seq<Groups.Group>, sizes: seq<nat>, n: nat)
    requires |sizes| > 0 && |G.nodes| == sizes[0] && IdsBelow(G.nodes, n) && Sized(gs, sizes[1..], n)
    ensures Sized([G] + gs, sizes, n)
  {
    forall k | 1 <= k < |sizes| ensures |([G] + gs)[k].nodes| == sizes[k] && IdsBelow(([G] + gs)[k].nodes, n) {
      assert sizes[1..][k - 1] == sizes[k];
    }
  }

  /** `prev.connect(next, ALL_TO_ALL)` with random weights, seen from the arena. */
  function Feed(h: Heap, prev: Groups.Group, next: Groups.Group, draws: nat -> real): (r: Result<Heap>)
    requires Wf(h) && IdsBelow(prev.nodes, |h.nodes|) && IdsBelow(next.nodes, |h.nodes|)
    ensures r.Err? ==> r.error == GroupSizes || r.error == AlreadyProjecting
    ensures r.Ok? ==> Wf(r.value) && |r.value.nodes| == |h.nodes|
  {
    var c :- Groups.ConnectTo(h, prev, Groups.Other(next), Some(AllToAll), None, draws);
    Ok(c.0)
  }

  /**
    The loop of `Perceptron` over the remaining layer sizes: a group of
    the layer's size is created and the group before it is connected to
    it all to all.
   */
  function Stack(h: Heap, prev: Groups.Group, sizes: seq<nat>, draw: nat -> real, draws: nat -> real)
    : (r: Result<(Heap, seq<Groups.Group>)>)
    requires Wf(h) && IdsBelow(prev.nodes, |h.nodes|)
    ensures r.Err? ==> r.error == GroupSizes || r.error == AlreadyProjecting
    ensures r.Ok? ==> Wf(r.value.0) && |h.nodes| <= |r.value.0.nodes| && Sized(r.value.1, sizes, |r.value.0.nodes|)
    decreases |sizes|
  {
    if sizes == [] then Ok((h, []))
    else
      var made := NewLayer(h, sizes[0], draw);
      var h2 :- Feed(made.0, prev, made.1, draws);
      var rest :- Stack(h2, made.1, sizes[1..], draw, draws);
      SizedCons(made.1, rest.1, sizes, |rest.0.nodes|);
      Ok((rest.0, [made.1] + rest.1))
  }

  /**
    `architect.Perceptron(...layers)`: fewer than three layer sizes throw;
    otherwise one group per size, each connected all to all to the next,
    handed to `Construct`.
   */
  function Perceptron(h: Heap, layers: seq<nat>, draw: nat -> real, draws: nat -> real): (r: Result<(Heap, Network)>)
    requires Wf(h)
    ensures |layers| < 3 <==> r == Err(TooFewLayers)
    ensures r.Err? ==> r.error in {TooFewLayers, GroupSizes, AlreadyProjecting, NoInputOutput}
    ensures r.Ok? ==> |r.value.1.nodes| == Sum(layers)
  {
    if |layers| < 3 then Err(TooFewLayers)
    else
      var first := NewLayer(h, layers[0], draw);
      var built :- Stack(first.0, first.1, layers[1..], draw, draws);
      var gs := [first.1] + built.1;
      SizedCons(first.1, built.1, layers, |built.0.nodes|);
      PartsListed(gs, layers, |built.0.nodes|);
      ConstructKeepsCount(built.0, Parts(gs));
      Construct(built.0, Parts(gs))
  }

  /** The groups' nodes, listed, are as many as the sizes add up to, and all in the arena. */
  lemma {:induction false} PartsListed(gs: seq<Groups.Group>, sizes: seq<nat>, n: nat)
    requires Sized(gs, sizes, n)
    ensures |ListedNodes(Parts(gs))| == Sum(sizes)
    ensures IdsBelow(ListedNodes(Parts(gs)), n)
    decreases |gs|
  {
    if gs != [] {
      assert Parts(gs)[1..] == Parts(gs[1..]);
      assert Sized(gs[1..], sizes[1..], n) by {
        forall k | 0 <= k < |gs[1..]| ensures |gs[1..][k].nodes| == sizes[1..][k] && IdsBelow(gs[1..][k].nodes, n) {
          assert gs[1..][k] == gs[k + 1];
        }
      }
      PartsListed(gs[1..], sizes[1..], n);
    }
  }

  // ------------------------------------------------------------ Random

  /**
    The options `Random` reads. JavaScript's `options.x || d` reads an
    option of 0 as absent, so 0 stands for both here.
   */
  datatype Options = Options(connections: nat, backconnections: nat, selfconnections: nat, gates: nat)

  /** How many of the operators are ADD_NODE. */
  function Added(ms: seq<Mutation>): nat {
    if ms == [] then 0 else (if ms[0].AddNode? then 1 else 0) + Added(ms[1..])
  }

  function Repeat(n: nat, m: Mutation): (ms: seq<Mutation>)
    ensures |ms| == n && forall i | 0 <= i < n :: ms[i] == m
  {
    if n == 0 then [] else [m] + Repeat(n - 1, m)
  }

  /**
    The operators `Random` applies, in order: `hidden` ADD_NODE, then
    ADD_CONN until `connections` (by default twice `hidden`) is reached,
    then the back connections, self connections and gates asked for.
   */
  function Schedule(hidden: nat, o: Options): seq<Mutation> {
    var connections := if o.connections == 0 then 2 * hidden else o.connections;
    var adds := if connections > hidden then connections - hidden else 0;
    Repeat(hidden, AddNode) + Repeat(adds, AddConn) + Repeat(o.backconnections, AddBackConn)
      + Repeat(o.selfconnections, AddSelfConn) + Repeat(o.gates, AddGate)
  }

  lemma {:induction false} AddedRepeat(n: nat, m: Mutation)
    ensures Added(Repeat(n, m)) == if m.AddNode? then n else 0
    ensures !m.SubNode? && !m.ModActivation? ==> AllGrowing(Repeat(n, m))
    decreases n
  {
    if n > 0 {
      assert Repeat(n, m)[1..] == Repeat(n - 1, m);
      AddedRepeat(n - 1, m);
    }
  }

  /** No operator of `ms` removes a node, and none needs a list of allowed squashes. */
  predicate AllGrowing(ms: seq<Mutation>) {
    forall i | 0 <= i < |ms| :: !ms[i].SubNode? && !ms[i].ModActivation?
  }

  lemma {:induction false} ConcatAdds(a: seq<Mutation>, b: seq<Mutation>)
    requires AllGrowing(a) && AllGrowing(b)
    ensures AllGrowing(a + b) && Added(a + b) == Added(a) + Added(b)
    decreases |a|
  {
    if a != [] {
      assert (a + b)[1..] == a[1..] + b;
      ConcatAdds(a[1..], b);
    } else {
      assert a + b == b;
    }
  }

  /** The schedule adds exactly `hidden` nodes, and holds no operator that removes one. */
  lemma ScheduleAdds(hidden: nat, o: Options)
    ensures Added(Schedule(hidden, o)) == hidden && AllGrowing(Schedule(hidden, o))
    ensures hidden > 0 ==> Schedule(hidden, o)[0] == AddNode
  {
    var connections := if o.connections == 0 then 2 * hidden else o.connections;
    var adds := if connections > hidden then connections - hidden else 0;
    var a, b, c, d, e := Repeat(hidden, AddNode), Repeat(adds, AddConn), Repeat(o.backconnections, AddBackConn),
      Repeat(o.selfconnections, AddSelfConn), Repeat(o.gates, AddGate);
    AddedRepeat(hidden, AddNode);
    AddedRepeat(adds, AddConn);
    AddedRepeat(o.backconnections, AddBackConn);
    AddedRepeat(o.selfconnections, AddSelfConn);
    AddedRepeat(o.gates, AddGate);
    ConcatAdds(a, b);
    ConcatAdds(a + b, c);
    ConcatAdds(a + b + c, d);
    ConcatAdds(a + b + c + d, e);
    assert Schedule(hidden, o) == a + b + c + d + e;
  }

  /** `network.mutate` with each operator in turn; step `k` draws from `us(k)`. */
  function Evolve(h: Heap, N: Network, ms: seq<Mutation>, us: nat -> Stream, ws: nat -> real, bs: nat -> real, k: nat)
    : (r: Result<(Heap, Network)>)
    requires Wf(h) && Indexed(h, N) && AllGrowing(ms)
    ensures r.Ok? ==> Wf(r.value.0) && Indexed(r.value.0, r.value.1)
    ensures r.Ok? ==> |r.value.1.nodes| == |N.nodes| + Added(ms) && |r.value.0.nodes| == |h.nodes| + Added(ms)
    ensures r.Ok? && Linked(h) ==> Linked(r.value.0)
    decreases |ms|
  {
    if ms == [] then Ok((h, N))
    else
      var step :- Mutations.Mutate(h, N, Some(ms[0]), us(k), ws, bs);
      Evolve(step.0, step.1, ms[1..], us, ws, bs, k + 1)
  }

  /**
    `architect.Random(input, hidden, output, options)`: a network of the
    given input and output sizes grown by the scheduled mutations. `ws0`
    and `biases` stand for the constructor's random draws, `us`, `ws` and
    `bs` for those of the mutations.
   */
  function Random(h: Heap, input: nat, hidden: nat, output: nat, o: Options, ws0: nat -> real, biases: nat -> real,
                  us: nat -> Stream, ws: nat -> real, bs: nat -> real): (r: Result<(Heap, Network)>)
    requires Wf(h)
    ensures r.Ok? ==> Wf(r.value.0) && Indexed(r.value.0, r.value.1)
    ensures r.Ok? ==> |r.value.1.nodes| == input + hidden + output
  {
    var made :- New(h, Some(input), Some(output), ws0, biases);
    Constructor.NewShape(h, input, output, ws0, biases);
    ScheduleAdds(hidden, o);
    Evolve(made.0, made.1, Schedule(hidden, o), us, ws, bs, 0)
  }

  /**
    Without an input or an output node the new network has no connection,
    so the first ADD_NODE finds nothing to split and throws.
   */
  lemma RandomNeedsBothEnds(h: Heap, input: nat, hidden: nat, output: nat, o: Options, ws0: nat -> real, biases: nat -> real,
                            us: nat -> Stream, ws: nat -> real, bs: nat -> real)
    requires Wf(h) && hidden > 0 && (input == 0 || output == 0)
    ensures Random(h, input, hidden, output, o, ws0, biases, us, ws, bs) == Err(Undefined)
  {
    Constructor.NewShape(h, input, output, ws0, biases);
    var made := New(h, Some(input), Some(output), ws0, biases).value;
    FlatIsProduct(input, 0, output);
    assert made.1.connections == [];
    ScheduleAdds(hidden, o);
  }
}
