# NEAT genome graph, architect, multi codec and transformer helpers in Dafny

This project models the core of the `llms-demo` repository's TypeScript
NEAT library (`neat-ts`) and the small transformer pieces next to it:

- **Connection, Node, Network** (`neat-ts/src/architecture`). A genome is a
  graph of nodes (input, hidden, output, constant). Each node keeps incoming,
  outgoing and gated connection lists and its own self-connection. The model
  covers connect, disconnect, gate, ungate, remove, the fourteen structural
  and parametric mutations, `crossOver`, the JSON round trip and `merge`.
- **Group** (`group.ts`). A group is a block of nodes connected all-to-all,
  all-to-else or one-to-one, then gated, set and disconnected as a whole.
- **architect** (`architect.ts`). `Construct` turns a list of nodes and groups
  into a network. The model also covers `Perceptron`'s argument check and the
  node count of `Random`.
- **multi** (`multithreading/multi.ts`). This is the flat number-array codec
  for data sets and networks that are handed to worker threads.
- **transformer-ts / simple-llm**. The model covers the causal attention mask
  and the head-divisibility check, token embedding, the parameter count,
  greedy generation with `argmax`, and the patch helpers of `miniLLM`.

Object identity is modelled by a global arena, `Heap(nodes, conns)`. A node
or connection is its position in the arena and is never reused, in the same
way that a JavaScript object is never recycled. A `Network` holds member
lists of such ids. Every operation is a total function, and a thrown
`Error` becomes an `Err` of the `Result` type. `Math.random()` becomes a
`Stream` of values in [0, 1) that is passed in, and fresh weights and biases
are taken from functions indexed by the fresh id. The structural invariant
(`Links.Linked`) says that every connection sits in its source's outgoing
list and its target's incoming list. It also says that a node reaches each
target at most once, and that a gater lists exactly the connections it
gates. The lemmas show which operations keep it.

## Model

| member | source | states |
|---|---|---|
| Connections.New | typescript/neat-ts/src/architecture/connection.ts:19-29 | a new connection joins the given ends and keeps a supplied weight exactly. Without a weight it takes the random draw. It has gain 1, no gater, zero eligibility and accumulated deltas, and an empty extended trace |
| Connections.ToJson | typescript/neat-ts/src/architecture/connection.ts:34-39 | the serialised record carries exactly the connection's weight |
| Connections.SuppliedWeightSerialised | typescript/neat-ts/src/architecture/connection.ts:19-39 | a weight supplied at construction, zero included, is the weight that is serialised |
| Connections.InnovationIdIsExact | typescript/neat-ts/src/architecture/connection.ts:45-47 | the floating-point formula `0.5 * (a + b) * (a + b + 1) + b` computes the natural key exactly, and the key is at least a+b |
| Connections.InnovationIdIsTriangular | typescript/neat-ts/src/architecture/connection.ts:45-47 | the key is the triangular number of a+b, offset by b |
| Connections.InnovationIdBand | typescript/neat-ts/src/architecture/connection.ts:45-47 | the key lies in the band of the diagonal a+b, at or above its triangular number and below the next one, so diagonals never overlap |
| Connections.TriMonotone | typescript/neat-ts/src/architecture/connection.ts:45-47 | triangular numbers grow with their argument |
| Connections.InnovationIdInjective | typescript/neat-ts/src/architecture/connection.ts:41-47 | two connections share an innovation key only when they join the same ordered pair of nodes |
| Connections.InnovationIdDirected | typescript/neat-ts/src/architecture/connection.ts:45-47 | the key of a→b differs from the key of b→a whenever a ≠ b |
| Methods.AllowedIsRegistry | typescript/neat-ts/src/methods/mutation.ts:34-50 | MOD_ACTIVATION's allowed list holds 15 distinct squash functions, and every registered squash is among them |
| Methods.KnownExactlyWhenNotSubConn | typescript/neat-ts/src/methods/mutation.ts:18-20 | a mutation's `name` is a key of the mutation table for every method except SUB_CONN, whose name is 'REMOVE_CONN' |
| Base.Pick | typescript/neat-ts/src/architecture/network.ts:195 | `Math.floor(Math.random() * n)` is an index below n, and 0 when n is 0 |
| Base.Uniform | typescript/neat-ts/src/architecture/network.ts:255 | `Math.random() * (max - min) + min` lies in [min, max) |
| Base.Slot | typescript/neat-ts/src/architecture/network.ts:215 | `Math.floor(Math.random() * span + lo)` lies in [lo, lo + span) for a positive span |
| Base.IndexOf | typescript/neat-ts/src/architecture/network.ts:129 | `indexOf` is -1 exactly when the value is absent; otherwise it is the first position that holds the value |
| Base.SpliceIn | typescript/neat-ts/src/architecture/network.ts:202 | `splice(i, 0, x)` puts x at the clamped start and shifts the tail up by one |
| Base.SpliceOut | typescript/neat-ts/src/architecture/node.ts:271-272 | `splice(indexOf(x), 1)` removes the first x when it is present, and the LAST element when it is absent |
| Base.SpliceOutDistinct | typescript/neat-ts/src/architecture/node.ts:271-272 | on a duplicate-free list it removes exactly x, and the list stays duplicate-free |
| Base.SpliceOutAbsent | typescript/neat-ts/src/architecture/node.ts:271-272 | when x is absent the last element is dropped and the length still shrinks by one |
| Base.RemoveAtDistinct | typescript/neat-ts/src/architecture/network.ts:110 | removing a position from a duplicate-free list removes exactly that value |
| Base.FlatIsProduct | typescript/neat-ts/src/architecture/network.ts:33-38 | the row-by-row position of pair (i, j) is i·len + j |
| Nodes.NewNode | typescript/neat-ts/src/architecture/node.ts:40-61 | a new node has the given type, or hidden by default. Its bias is 0 for an input and drawn otherwise. It is logistic with mask 1, has empty lists, and has a zero-weight self-connection, so it does not project to itself |
| Nodes.IsProjectingTo | typescript/neat-ts/src/architecture/node.ts:324-333 | true exactly when a is b with a nonzero self weight, or some outgoing connection of a ends at b |
| Nodes.IsProjectedBy | typescript/neat-ts/src/architecture/node.ts:338-347 | true exactly when a is b with a nonzero self weight, or some incoming connection of a starts at b |
| Nodes.OrOne | typescript/neat-ts/src/architecture/node.ts:202 | `weight \|\| 1` is never zero and keeps a nonzero weight |
| Nodes.Connect | typescript/neat-ts/src/architecture/node.ts:195-212 | connecting a node to itself always succeeds and revives only the self weight, which stays unchanged when it is nonzero. Otherwise it fails exactly when a already projects to b. On success one new connection is appended to a's outgoing list and b's incoming list, nothing else changes, and a then projects to b |
| GroupTargets.LinkNew | typescript/neat-ts/src/architecture/node.ts:214-217 | the arena gains exactly the new connection at the end, and no node is added |
| GroupTargets.LinkNewOuts | typescript/neat-ts/src/architecture/node.ts:216 | the new connection joins the source's outgoing list, and no other outgoing list changes |
| GroupTargets.LinkNewIns | typescript/neat-ts/src/architecture/node.ts:215 | the new connection joins the target's incoming list, and no other incoming list changes |
| GroupTargets.LinkNewKeeps | typescript/neat-ts/src/architecture/node.ts:214-217 | no field of any node changes except its two connection lists |
| GroupTargets.LinkNewWf | typescript/neat-ts/src/architecture/node.ts:214-217 | filing a well-formed connection keeps the arena well formed |
| GroupTargets.ConnectFirstWf | typescript/neat-ts/src/architecture/node.ts:213-221 | every turn of the group loop keeps the arena well formed |
| GroupTargets.ConnectGroup | typescript/neat-ts/src/architecture/node.ts:213-221 | connecting to a group never fails: the arena stays well formed and gains exactly one connection per group node, and one id per group node is returned |
| GroupTargets.ConnectFirstKeepsConns | typescript/neat-ts/src/architecture/node.ts:213-221 | the connections the arena already held are kept |
| GroupTargets.ConnectFirstConn | typescript/neat-ts/src/architecture/node.ts:213-221 | turn i appends connection number |conns| + i, from a to the group's i-th node, with the given weight or the i-th draw, and returns that number |
| GroupTargets.ConnectFirstOuts | typescript/neat-ts/src/architecture/node.ts:216 | a's outgoing list gains the returned ids in order, and no other outgoing list changes |
| GroupTargets.ConnectFirstIns | typescript/neat-ts/src/architecture/node.ts:215 | each node's incoming list gains exactly the new connections made to it, in order |
| GroupTargets.ConnectFirstKeeps | typescript/neat-ts/src/architecture/node.ts:213-221 | no field of any node changes except its two connection lists |
| GroupTargets.ConnectGroupProjects | typescript/neat-ts/src/architecture/node.ts:213-221 | afterwards a projects to every group node, a itself included when it is in the group, with no already-projecting check |
| GroupTargets.ConnectGroupKeepsProjections | typescript/neat-ts/src/architecture/node.ts:213-221 | whatever a projected to before, it still projects to |
| GroupTargets.ConnectToGroup | typescript/neat-ts/src/architecture/node.ts:213-221 | the group keeps its nodes and lists, and its incoming list gains the new connections in order; the arena and the group stay well formed |
| GroupTargets.ConnectToGroupIns | typescript/neat-ts/src/architecture/node.ts:213-221 | the i-th connection the group records runs from a to the group's i-th node |
| Nodes.Gate | typescript/neat-ts/src/architecture/node.ts:251-260 | the listed connections are appended to the gater's gated list, and each of them names it as gater; every other node and connection is unchanged |
| Nodes.Ungate | typescript/neat-ts/src/architecture/node.ts:265-276 | each listed connection loses its gater and gets gain 1. Every other node and connection is unchanged, and the gated list only loses entries |
| Nodes.UngateFrame | typescript/neat-ts/src/architecture/node.ts:265-276 | ungating changes no field of the gater except its gated list |
| Nodes.DisconnectOne | typescript/neat-ts/src/architecture/node.ts:228-242 | when a has an outgoing connection to b, the first one leaves a's outgoing list and b's incoming list and is ungated if gated; otherwise nothing changes |
| Nodes.Disconnect | typescript/neat-ts/src/architecture/node.ts:228-246 | disconnecting a node from itself zeroes only its self weight. Two-sided disconnection removes both directions |
| Nodes.NextSquash | typescript/neat-ts/src/architecture/node.ts:308-311 | the new squash is taken from the allowed list and, for a distinct list of at least two, differs from the current one |
| Nodes.Mutate | typescript/neat-ts/src/architecture/node.ts:301-319 | no method is an error, and SUB_CONN is "does not exist" because of its name. MOD_ACTIVATION changes only the squash, to a different allowed one. MOD_BIAS changes only the bias, by an amount in [min, max). Any other method changes nothing |
| Nodes.ResetTraces | typescript/neat-ts/src/architecture/node.ts:282-289 | the listed connections have zero eligibility and empty traces, and the others are unchanged |
| Nodes.SetGains | typescript/neat-ts/src/architecture/node.ts:290-293 | the listed connections carry the new gain, and the others are unchanged |
| Nodes.Clear | typescript/neat-ts/src/architecture/node.ts:281-296 | the node's errors and state are zero, its incoming connections lose their traces, and its gated connections get gain 0. A connection that is both incoming and gated loses its traces and gets gain 0. No link changes |
| Nodes.NoTraceActivate | typescript/neat-ts/src/architecture/node.ts:120-135 | a given input becomes the activation and nothing else changes. Otherwise the new state is the self-loop term plus bias plus the weighted inputs, the activation is its squash, and every gated connection takes the activation as gain |
| Nodes.Activate | typescript/neat-ts/src/architecture/node.ts:66-115 | the same as NoTraceActivate, and in addition the old state is kept, the mask scales the activation, and the derivative is recorded. Links and other nodes are unchanged |
| Nodes.PropagateIn | typescript/neat-ts/src/architecture/node.ts:165-181 | with update, the accumulated delta is applied to the weight, recorded as the previous delta, and reset. Without update, the weight and previous delta stay |
| Nodes.PropagateIns | typescript/neat-ts/src/architecture/node.ts:165-181 | the same holds for every incoming connection at once, and connections outside the list are untouched |
| Nodes.WithErrors | typescript/neat-ts/src/architecture/node.ts:141-163 | an output node's responsibility and projected error are target − activation; any other node's responsibility is projected plus gated error |
| Nodes.BiasStep | typescript/neat-ts/src/architecture/node.ts:182-189 | with update, the bias moves by the new previous delta and the accumulator resets. Without update, the bias is unchanged |
| Nodes.Propagate | typescript/neat-ts/src/architecture/node.ts:140-190 | only the node and its incoming connections change, and no link changes. An output node's errors are target − activation. A constant node stops after its errors are set, and without update the bias stays |
| Nodes.TryPropagate | typescript/neat-ts/src/architecture/node.ts:140-163 | the result is the NaN report exactly when an output node has no target or another node has no derivative. Otherwise it is the node-level propagate |
| Nodes.PropagateUpdates | typescript/neat-ts/src/architecture/node.ts:173-189 | with update, every accumulator is reset, and every weight and the bias have moved by exactly their recorded previous delta |
| Nodes.ToJson | typescript/neat-ts/src/architecture/node.ts:352-360 | the record carries the node's bias, type, squash and mask |
| Nodes.FromJson | typescript/neat-ts/src/architecture/node.ts:365-372 | reading a record gives a fresh, unlinked node whose serialisation is that record again |
| Links.SameShapeLinked | typescript/neat-ts/src/architecture/node.ts:66-190 | changing only values (weights, gains, traces, biases, states) keeps the link invariant |
| Links.NewNodeLinked | typescript/neat-ts/src/architecture/node.ts:40-61 | adding a fresh node keeps the link invariant |
| Links.ConnectLinked | typescript/neat-ts/src/architecture/node.ts:205-212 | connecting distinct nodes where a does not yet project to b succeeds and keeps the invariant |
| Links.ConnectSelfLinked | typescript/neat-ts/src/architecture/node.ts:198-204 | reviving a self-connection keeps the invariant |
| Links.GateOneLinked | typescript/neat-ts/src/architecture/node.ts:255-259 | gating an ungated connection keeps the invariant |
| Links.UngateOneLinked | typescript/neat-ts/src/architecture/node.ts:269-275 | ungating a connection from its own gater keeps the invariant |
| Links.GateLinked | typescript/neat-ts/src/architecture/node.ts:251-260 | gating distinct ungated connections keeps the invariant |
| Links.UngateLinked | typescript/neat-ts/src/architecture/node.ts:265-276 | ungating distinct connections of one gater keeps the invariant |
| Links.UnlinkLists | typescript/neat-ts/src/architecture/node.ts:236-238 | after unlinking, both lists have lost exactly the removed connection and are still duplicate-free |
| Links.UnlinkLinked | typescript/neat-ts/src/architecture/node.ts:236-238 | taking a connection out of both of its lists keeps the invariant |
| Links.DisconnectOneLinked | typescript/neat-ts/src/architecture/node.ts:228-242 | one-sided disconnection keeps the invariant |
| Links.DisconnectLinked | typescript/neat-ts/src/architecture/node.ts:228-246 | disconnection in either form keeps the invariant |
| Networks.Connect | typescript/neat-ts/src/architecture/network.ts:91-102 | it fails exactly when the node-level connect fails. On success the new connection is filed under connections, or under selfconns for a loop, and a cached index stays valid |
| Networks.Gate | typescript/neat-ts/src/architecture/network.ts:117-126 | gating with a non-member is an error. An already gated connection leaves everything unchanged. Otherwise the connection is gated by g and appended to gates, and the member list stays |
| Networks.Ungate | typescript/neat-ts/src/architecture/network.ts:128-135 | a connection not in gates is an error. Otherwise it leaves gates, loses its gater, and the member list stays |
| Networks.Disconnect | typescript/neat-ts/src/architecture/network.ts:104-115 | the first recorded connection from a to b is ungated when it is gated and leaves the matching list, and the nodes are disconnected. A gated connection missing from gates is the ungate error |
| Networks.FreshNodes | typescript/neat-ts/src/architecture/network.ts:29-32 | the new nodes are appended in order with the requested types, and nothing existing changes |
| Networks.FreshNodesUnindexed | typescript/neat-ts/src/architecture/node.ts:35-38 | fresh nodes carry no cached index |
| Networks.Layout | typescript/neat-ts/src/architecture/network.ts:29-32 | a new network lists `input` input nodes, then `output` output nodes |
| Networks.Grid | typescript/neat-ts/src/architecture/network.ts:33-38 | the pairs are every (input, output) pair, row by row |
| Networks.New | typescript/neat-ts/src/architecture/network.ts:17-20 | a missing size is exactly the "No input or output size" error |
| Networks.ActivateStep | typescript/neat-ts/src/architecture/network.ts:41-55 | an input member takes its input value, an output member contributes exactly its activation, and links stay. In training, every other member first draws its mask: 0 when the draw is below the dropout rate, 1 otherwise. Without training, and for input and output members, the mask stays |
| Networks.ActivateFrom | typescript/neat-ts/src/architecture/network.ts:41-55 | from position i on, the result lists the final activations of the output members in member order, and members before i are unchanged |
| Networks.Activate | typescript/neat-ts/src/architecture/network.ts:41-55 | the result lists the final activations of the output members in member order, one per output member, and no link changes |
| Networks.NoTraceActivateFrom | typescript/neat-ts/src/architecture/network.ts:57-70 | the untraced pass also yields the final activations of the output members in member order, keeps the members before i, and changes no link |
| Networks.FirstVisited | typescript/neat-ts/src/architecture/network.ts:80 | the hidden loop stops at the first non-input member, and runs not at all when the input block reaches into the output block |
| Networks.Propagate | typescript/neat-ts/src/architecture/network.ts:72-83 | a missing target, or one whose length is not the output count, is an error. So is an output count above the member count. A visited node that would compute with NaN is the NaN report. Otherwise no link changes and the members below the first visited are untouched |
| Networks.ClearFrom | typescript/neat-ts/src/architecture/network.ts:85-89 | every member from position i on has zero activation and state, and earlier members are unchanged |
| Networks.Clear | typescript/neat-ts/src/architecture/network.ts:85-89 | every member has zero activation and state, and no link changes |
| Networks.CountKindSameKinds | typescript/neat-ts/src/architecture/network.ts:41-55 | the number of output members does not change when only values change |
| NetworkLinks.ConnectKeepsLinked | typescript/neat-ts/src/architecture/network.ts:91-102 | a successful network connect keeps the link invariant |
| NetworkLinks.GateKeepsLinked | typescript/neat-ts/src/architecture/network.ts:117-126 | a successful network gate keeps the link invariant |
| NetworkLinks.UngateKeepsLinked | typescript/neat-ts/src/architecture/network.ts:128-135 | a successful network ungate keeps the link invariant |
| NetworkLinks.DisconnectKeepsLinked | typescript/neat-ts/src/architecture/network.ts:104-115 | a successful network disconnect keeps the link invariant |
| NetworkLinks.WiringKeepsProjections | typescript/neat-ts/src/architecture/node.ts:324-333 | when no outgoing list loses a connection and the endpoints stay, every projection survives |
| NetworkLinks.GateKeepsWiring | typescript/neat-ts/src/architecture/network.ts:117-126 | gating loses no projection |
| NetworkLinks.UngateKeepsWiring | typescript/neat-ts/src/architecture/network.ts:128-135 | ungating loses no projection |
| NetworkLinks.ConnectKeepsWiring | typescript/neat-ts/src/architecture/network.ts:91-102 | connecting loses no projection |
| NetworkLinks.UngateKeepsWeights | typescript/neat-ts/src/architecture/network.ts:128-135 | ungating changes no weight, endpoint or self-connection |
| NetworkLinks.DisconnectSelfKeepsWiring | typescript/neat-ts/src/architecture/network.ts:104-115 | removing a self-connection loses only the node's projection onto itself |
| Removal.DropEdge | typescript/neat-ts/src/architecture/network.ts:151 | disconnecting one swept edge keeps the member list, the cached indices and the link invariant; its only errors are the ungate errors |
| Removal.Reclaim | typescript/neat-ts/src/architecture/network.ts:147-149 | a gater is kept only when keep_gates is set and the connection is gated by a node other than the one removed |
| Removal.SweepFrom | typescript/neat-ts/src/architecture/network.ts:145-161 | the sweep records each neighbour and reclaimed gater, in list order from the back, and leaves the node's edges of that direction disconnected |
| Removal.Rewire | typescript/neat-ts/src/architecture/network.ts:163-172 | rewiring always succeeds, keeps the link invariant and every projection, and afterwards every listed pair projects |
| Removal.KeepsTrans | typescript/neat-ts/src/architecture/network.ts:163-183 | keeping every projection composes over steps |
| Removal.ConnectStep | typescript/neat-ts/src/architecture/network.ts:168 | one connect keeps linkage and every projection, and adds its own |
| Removal.GateStep | typescript/neat-ts/src/architecture/network.ts:177 | one gate keeps linkage and every projection |
| Removal.UngateStep | typescript/neat-ts/src/architecture/network.ts:182 | one ungate keeps linkage and every projection |
| Removal.Assign | typescript/neat-ts/src/architecture/network.ts:173-179 | the i-th reclaimed gater is paired with one of the new connections, as many times as both lists allow |
| Removal.AssignDistinct | typescript/neat-ts/src/architecture/network.ts:176-178 | since each picked connection leaves the pool, no new connection receives two gaters |
| Removal.GateAll | typescript/neat-ts/src/architecture/network.ts:173-179 | regating keeps every projection and the link invariant; its only error is a gater that is no longer a member |
| Removal.Regate | typescript/neat-ts/src/architecture/network.ts:173-179 | the gates follow the Assign pairing and keep every projection and the link invariant |
| Removal.UngateAll | typescript/neat-ts/src/architecture/network.ts:180-183 | ungating from the back leaves the removed node gating nothing and keeps linkage and every projection |
| Removal.UngateLast | typescript/neat-ts/src/architecture/network.ts:180-182 | ungating the last gated connection shortens the gated list by one |
| Removal.Detach | typescript/neat-ts/src/architecture/network.ts:143-161 | after both sweeps the node's neighbours are recorded, none of them is the node itself, and linkage holds |
| Removal.Relink | typescript/neat-ts/src/architecture/network.ts:162-179 | every recorded input projects to every recorded output, linkage holds, and no earlier projection is lost |
| Removal.GridProjects | typescript/neat-ts/src/architecture/network.ts:163-172 | projections along every grid pair, once kept, connect every input to every output |
| Removal.Reattach | typescript/neat-ts/src/architecture/network.ts:162-184 | after relinking, regating, ungating and dropping the self loop, every input still projects to every output other than the node, and the node gates nothing |
| Removal.DisconnectSelfKeepsGated | typescript/neat-ts/src/architecture/network.ts:184 | dropping the self loop of a node that gates nothing leaves it gating nothing |
| Removal.Remove | typescript/neat-ts/src/architecture/network.ts:137-186 | removing a non-member is exactly the "does not exist" error. On success the node leaves the member list at its first position, the arena keeps its size, and under linkage linkage holds and the node gates nothing |
| Removal.RemoveShrinks | typescript/neat-ts/src/architecture/network.ts:185 | the removed node is no longer a member, the list is one shorter and still duplicate-free, and every other member stays |
| Removal.RemoveRewires | typescript/neat-ts/src/architecture/network.ts:145-172 | every node that fed the removed node projects afterwards to every node it fed |
| Mutations.UngatedFrom | typescript/neat-ts/src/architecture/network.ts:300-309 | the candidates are exactly the listed connections without a gater |
| Mutations.SelflessFrom | typescript/neat-ts/src/architecture/network.ts:275-283 | the candidates are exactly the positions whose node has a zero-weight self-connection |
| Mutations.ModWeight | typescript/neat-ts/src/architecture/network.ts:252-257 | with no connection at all the pick is undefined and the step throws. Otherwise exactly one connection of connections ++ selfconns has its weight shifted by an amount in [min, max), and nothing else changes |
| Mutations.ModBias | typescript/neat-ts/src/architecture/network.ts:259-263 | with no non-input member the pick is undefined. Otherwise exactly one non-input member has its bias shifted by an amount in [min, max) |
| Mutations.ModActivation | typescript/neat-ts/src/architecture/network.ts:265-273 | with only inputs and outputs and mutateOutput off, nothing changes. Otherwise one member in the allowed span gets a different allowed squash, and only its squash changes |
| Mutations.SwapNodes | typescript/neat-ts/src/architecture/network.ts:362-373 | with fewer than two nodes in the span nothing changes. Otherwise two members of the span exchange bias and squash, and nothing else changes |
| Mutations.AddSelfConn | typescript/neat-ts/src/architecture/network.ts:275-289 | nothing changes exactly when every non-input member already has a live self loop. Otherwise one dead self loop gets weight 1 and is filed under selfconns |
| Mutations.SubSelfConn | typescript/neat-ts/src/architecture/network.ts:291-298 | with no self loop nothing changes. Otherwise a recorded self loop gets weight 0 and leaves selfconns |
| Mutations.AddGate | typescript/neat-ts/src/architecture/network.ts:300-317 | nothing changes exactly when every connection is already gated. Otherwise a non-input member gates a formerly ungated connection, which joins gates |
| Mutations.SubGate | typescript/neat-ts/src/architecture/network.ts:319-327 | nothing changes exactly when gates is empty. Otherwise one gated connection loses its gater and leaves gates |
| Mutations.DisconnectOneUnprojects | typescript/neat-ts/src/architecture/node.ts:228-242 | under linkage, disconnecting a from b ends a's projection to b |
| Mutations.DisconnectUnprojects | typescript/neat-ts/src/architecture/network.ts:104-115 | the network-level disconnect also ends the projection |
| Mutations.OpenRow | typescript/neat-ts/src/architecture/network.ts:222-226 | the row holds exactly the open targets of one source position |
| Mutations.OpenFrom | typescript/neat-ts/src/architecture/network.ts:221-227 | the candidate list holds exactly the open (source, target) pairs of the nested loops |
| Mutations.AddConn | typescript/neat-ts/src/architecture/network.ts:219-234 | nothing changes exactly when no pair is open. Otherwise the connection of one open pair is made, so its source projects to its target, and no projection is lost. The same member covers ADD_BACK_CONN at typescript/neat-ts/src/architecture/network.ts:329-344 |
| Mutations.RemovableFrom | typescript/neat-ts/src/architecture/network.ts:238-243 | the candidates are exactly the connections whose source has more than one outgoing and whose target has more than one incoming connection, in forward (or, for SUB_BACK_CONN, backward) member order |
| Mutations.SubConn | typescript/neat-ts/src/architecture/network.ts:236-250 | with no candidate nothing changes. Otherwise one candidate's source no longer projects to its target. The same member covers SUB_BACK_CONN at typescript/neat-ts/src/architecture/network.ts:346-360 |
| Mutations.SubNode | typescript/neat-ts/src/architecture/network.ts:210-217 | with only inputs and outputs nothing changes. Otherwise one hidden member is removed, the member list is one shorter, and the node gates nothing |
| Mutations.Fresh | typescript/neat-ts/src/architecture/network.ts:198-200 | the inserted node is hidden and carries the given bias. Its squash is an allowed one other than logistic, and it has no edges |
| Mutations.FreshUnreached | typescript/neat-ts/src/architecture/network.ts:198 | no existing node projects to a node that was just appended |
| Mutations.Place | typescript/neat-ts/src/architecture/network.ts:201-202 | the new node is inserted at a position no later than the first output slot, and nothing else moves |
| Mutations.BridgeProjects | typescript/neat-ts/src/architecture/network.ts:203-204 | after the two new connections a projects to the new node and the new node to b, and a projects to b exactly as before |
| Mutations.ChainProjects | typescript/neat-ts/src/architecture/network.ts:203-204 | two connect steps compose: the first projection survives the second step, and a→b is unchanged |
| Mutations.GateSameProjections | typescript/neat-ts/src/architecture/network.ts:205-207 | gating changes no projection in either direction |
| Mutations.InsertShape | typescript/neat-ts/src/architecture/network.ts:198-204 | the arena gains one hidden node and three connections (its self loop and two edges), it is placed by Place, and connections gains two entries |
| Mutations.InsertProjects | typescript/neat-ts/src/architecture/network.ts:203-204 | the new node sits between a and b in the projection graph, and a→b stays as it was |
| Mutations.GateGrown | typescript/neat-ts/src/architecture/network.ts:205-207 | gating one of the two new connections gives the same shape, with that gater on exactly one half |
| Mutations.Grow | typescript/neat-ts/src/architecture/network.ts:198-207 | regrowing fails exactly when the old gater is no longer a member. Otherwise the new node is bridged in and the old gater gates exactly one half |
| Mutations.Cut | typescript/neat-ts/src/architecture/network.ts:195-197 | cutting a recorded connection drops it from connections, and under linkage its source no longer projects to its target |
| Mutations.AddNodeAt | typescript/neat-ts/src/architecture/network.ts:194-208 | ADD_NODE on a chosen connection: the connection is replaced by a new hidden node with one connection in and one out, and the old gater gates one of them |
| Mutations.AddNode | typescript/neat-ts/src/architecture/network.ts:194-208 | with no connection the pick is undefined and the step throws. Otherwise one arena node and one member are added in the place of some recorded connection, and the link invariant is kept |
| Mutations.Mutate | typescript/neat-ts/src/architecture/network.ts:188-376 | no method is the "no method" error. Every successful mutation keeps the cached indices and the link invariant, adds a member only for ADD_NODE, removes one only for SUB_NODE, and otherwise keeps the member list |
| Genes.Collect | typescript/neat-ts/src/architecture/network.ts:451-469 | the dictionary has a key for every gene, every entry is one of the genes, and a key that repeats keeps its LAST gene, because a later write overwrites |
| Genes.CollectStep | typescript/neat-ts/src/architecture/network.ts:458 | one dictionary write keeps those three promises |
| Genes.IndexKeys | typescript/neat-ts/src/architecture/network.ts:472-491 | a gene whose end positions sum to less than 92,681 has a key below 2^32 − 1, an array-index key; the sum 92,681 already gives a larger key |
| Genes.Bound | typescript/neat-ts/src/architecture/network.ts:473-474 | every integer key lies below the bound |
| Genes.CollectBelow | typescript/neat-ts/src/architecture/network.ts:473-474 | the keys of a whole dictionary lie below the bound of its genes |
| Genes.Keep1 | typescript/neat-ts/src/architecture/network.ts:477-483 | at one key of the first parent, the first pass keeps the chosen common gene, or a gene of the first parent alone when that parent is kept |
| Genes.Keep2 | typescript/neat-ts/src/architecture/network.ts:486-491 | at one key of the second parent, the second pass keeps its gene exactly when the first pass did not consume the key |
| Genes.Down | typescript/neat-ts/src/architecture/network.ts:475-484 | the first pass walks the first parent's keys from the largest down and keeps exactly its chosen genes |
| Genes.Up | typescript/neat-ts/src/architecture/network.ts:486-491 | the second pass walks the second parent's keys from the smallest up and keeps exactly its left-over genes |
| Genes.Select | typescript/neat-ts/src/architecture/network.ts:471-492 | the chosen gene list holds exactly the chosen genes, and no key appears twice |
| Genes.CommonGeneOnce | typescript/neat-ts/src/architecture/network.ts:477-480 | a gene both parents have appears exactly once in the child: the first parent's copy when the coin says so, the second's otherwise. Its weight is one of the parents' weights |
| Genes.UniqueGenes | typescript/neat-ts/src/architecture/network.ts:481-491 | a disjoint or excess gene of one parent is inherited exactly when that parent is kept by the score comparison or by equal |
| Genes.Size | typescript/neat-ts/src/architecture/network.ts:400-409 | with a tie or equal, the child's size lies between the parents' sizes. Otherwise it is the fitter parent's size |
| Genes.GaterIn | typescript/neat-ts/src/architecture/network.ts:501 | a gate is applied exactly when the gene has a gater index that is not -1 and is below the size |
| Genes.Plan | typescript/neat-ts/src/architecture/network.ts:495-505 | the links are exactly those of the genes whose ends fit below the size, in gene order |
| Genes.PlanPairsDistinct | typescript/neat-ts/src/architecture/network.ts:495-505 | genes with distinct keys give links between distinct pairs of nodes |
| Crossover.Stamp | typescript/neat-ts/src/architecture/network.ts:414-419 | stamping changes only cached indices, and a node not listed keeps its index |
| Crossover.StampLast | typescript/neat-ts/src/architecture/network.ts:414-419 | a node listed more than once ends with the position of its last listing |
| Crossover.StampDistinct | typescript/neat-ts/src/architecture/network.ts:414-416 | in a list without repeats every member's index is its position |
| Crossover.Stamped | typescript/neat-ts/src/architecture/network.ts:413-419 | stamping both parents changes only cached indices |
| Crossover.GenesOf | typescript/neat-ts/src/architecture/network.ts:451-469 | there is one gene record per connection, in list order |
| Crossover.GeneOfMember | typescript/neat-ts/src/architecture/network.ts:452-457 | for a connection inside the first parent only, the gene's ends are the positions of its ends in that parent, and its weight is the connection's weight |
| Crossover.Parent | typescript/neat-ts/src/architecture/network.ts:422-437 | below size − output, the parent node is one parent's node at i, and an output or missing pick falls back to the other parent. From size − output on, it is the node at the same distance from either parent's end |
| Crossover.Copy | typescript/neat-ts/src/architecture/network.ts:438-442 | the copy is a fresh node with the parent's bias, squash and type |
| Crossover.Spawn | typescript/neat-ts/src/architecture/network.ts:422-443 | copying fails exactly when some position has no parent node (undefined). Otherwise every offspring node is a fresh copy of its parent node, in order |
| Crossover.ConnectValues | typescript/neat-ts/src/architecture/network.ts:499 | connecting changes no node's values |
| Crossover.GateValues | typescript/neat-ts/src/architecture/network.ts:502 | gating changes no node's values |
| Crossover.Join | typescript/neat-ts/src/architecture/network.ts:499-500 | connect then set the weight: it fails exactly when distinct ends already project. Otherwise one connection carries the gene's weight |
| Crossover.JoinWeighted | typescript/neat-ts/src/architecture/network.ts:499-500 | on a fresh pair, connect-then-set-weight is the same as connecting with the weight directly |
| Crossover.GateMember | typescript/neat-ts/src/architecture/network.ts:502 | gating by a member sets the gater only when the connection had none, and no other connection changes |
| Crossover.Lay | typescript/neat-ts/src/architecture/network.ts:495-505 | laying one link fails exactly when its distinct ends already project. Otherwise one connection carries the link's ends, weight and gater |
| Crossover.NotYetProjecting | typescript/neat-ts/src/architecture/network.ts:496-499 | because the genes' pairs are distinct, the next link's ends do not yet project, so connect cannot throw during the rebuild |
| Crossover.FiledCover | typescript/neat-ts/src/architecture/network.ts:91-102 | connections and selfconns together hold every connection made and nothing else |
| Crossover.BuildStep | typescript/neat-ts/src/architecture/network.ts:495-505 | one laid link keeps the build invariant and changes no node's values |
| Crossover.Build | typescript/neat-ts/src/architecture/network.ts:495-505 | laying every link gives one connection per link, carrying exactly that link |
| Crossover.GenesOfNet | typescript/neat-ts/src/architecture/network.ts:451 | a parent's genes are its connections followed by its self-connections |
| Crossover.Inherited | typescript/neat-ts/src/architecture/network.ts:471-505 | the inherited links fit below the size and join distinct pairs |
| Crossover.BuildDone | typescript/neat-ts/src/architecture/network.ts:495-506 | the finished build is an offspring in the sense of Offspring |
| Crossover.DoneCarried | typescript/neat-ts/src/architecture/network.ts:495-505 | every inherited link is carried by some connection of the child |
| Crossover.DoneOnlyCarried | typescript/neat-ts/src/architecture/network.ts:495-505 | every connection of the child carries some inherited link |
| Crossover.CrossOver | typescript/neat-ts/src/architecture/network.ts:385-507 | different sizes are the size error. Otherwise it fails exactly when a parent node is missing, or when neither parent has a plain connection while one has a self-connection (no Connection constructor to compute a key). On success the child has size nodes, each a copy of its parent node, and its connections carry the inherited links one to one |
| Serialize.MakeNode | typescript/neat-ts/src/architecture/network.ts:597-602 | each node record becomes a fresh node of that type, with the record's bias and squash and index i |
| Serialize.MakeNodes | typescript/neat-ts/src/architecture/network.ts:596-603 | the node loop appends one restored node per record, in order |
| Serialize.Lookup | typescript/neat-ts/src/architecture/network.ts:608-610 | reading `network.nodes[i]` gives a node exactly when i is a position in range; otherwise it is undefined |
| Serialize.WireOne | typescript/neat-ts/src/architecture/network.ts:607-614 | one connection record adds exactly one connection, changes no node's values, and fails only on an undefined end, a repeated pair, or a gater that is not a member |
| Serialize.Wire | typescript/neat-ts/src/architecture/network.ts:606-615 | the connection loop adds one connection per record and stops at the first record that throws |
| Serialize.FromJson | typescript/neat-ts/src/architecture/network.ts:589-618 | on success the network has the record's sizes and dropout, one node per record in order with that record's bias, squash and type and index i, and one connection per connection record |
| Serialize.PosOf | typescript/neat-ts/src/architecture/network.ts:573 | a member's position holds that member |
| Serialize.Replay | typescript/neat-ts/src/architecture/network.ts:557-565 | the links of a network are its connections, in order, as positions of their ends and gater |
| Serialize.ReplayShape | typescript/neat-ts/src/architecture/network.ts:557-565 | those links lie among the members, join distinct pairs, and are never loops |
| Serialize.ToJsonEntries | typescript/neat-ts/src/architecture/network.ts:557-565 | when every cached index is the member's position, toJSON writes each connection as the record of its link |
| Serialize.WireOneIsLay | typescript/neat-ts/src/architecture/network.ts:611-613 | reading one record performs the same step as laying that link in crossOver's rebuild |
| Serialize.WireIsBuild | typescript/neat-ts/src/architecture/network.ts:606-615 | the whole connection loop of fromJSON is crossOver's rebuild over the replayed links |
| Serialize.ReplayStart | typescript/neat-ts/src/architecture/network.ts:596-603 | the restored nodes are a valid starting state for the rebuild |
| Serialize.ReplayMirrors | typescript/neat-ts/src/architecture/network.ts:606-615 | a finished rebuild reproduces every connection by position, weight and gater |
| Serialize.RebuiltIsBuilt | typescript/neat-ts/src/architecture/network.ts:555-618 | fromJSON of toJSON is the rebuild over the replayed links, and the copy has no self-connection list |
| Serialize.RoundTrip | typescript/neat-ts/src/architecture/network.ts:555-618 | when the cached indices are the positions, fromJSON(toJSON(N)) succeeds and mirrors N: same sizes and dropout, the same nodes in order, and the same connections in order. Self-connections are not written and so not restored |
| Serialize.ToJsonThrows | typescript/neat-ts/src/architecture/network.ts:560-561 | when the first connection's source carries no cached index, toJSON writes an undefined end and fromJSON throws |
| Serialize.NewDoesNotRoundTrip | typescript/neat-ts/src/architecture/network.ts:17-39 | a network built by the constructor, with at least one input and one output, has no cached indices, so fromJSON(toJSON(N)) throws |
| Serialize.StampMirrors | typescript/neat-ts/src/architecture/network.ts:414-419 | refreshing the cached indices changes nothing a copy is compared on |
| Serialize.RoundTripStamped | typescript/neat-ts/src/architecture/network.ts:555-618 | with indices set to positions first, the round trip succeeds for every replayable network and mirrors it |
| Constructor.GridDistinct | typescript/neat-ts/src/architecture/network.ts:33-38 | the constructor's nested loops never visit the same (input, output) pair twice |
| Constructor.GridLinks | typescript/neat-ts/src/architecture/network.ts:33-38 | each pair becomes a link between the positions of its ends, with the weight of its turn and no gater |
| Constructor.GridBounds | typescript/neat-ts/src/architecture/network.ts:29-38 | every pair goes from an input position to an output position |
| Constructor.GridShape | typescript/neat-ts/src/architecture/network.ts:29-38 | the constructor's links lie among the new nodes, join distinct pairs, and always go from an input to an output |
| Constructor.PairStep | typescript/neat-ts/src/architecture/network.ts:36 | connecting the next pair is the same step as laying the next planned link |
| Constructor.ConnectPairsIsBuild | typescript/neat-ts/src/architecture/network.ts:33-38 | the constructor's connect loop is the rebuild over the planned links, so it never throws |
| Constructor.GridLinksFlat | typescript/neat-ts/src/architecture/network.ts:33-38 | there is one link per (input, output) pair, and the link at turn a·output + b joins input a to output b |
| Constructor.Planned | typescript/neat-ts/src/architecture/network.ts:17-32 | before any connection, the new network has `input` inputs then `output` outputs, empty lists and dropout 0, and its plan has one link per (input, output) pair |
| Constructor.PlannedFresh | typescript/neat-ts/src/architecture/network.ts:29-32 | the planned nodes are fresh and carry no cached index |
| Constructor.NewIsBuild | typescript/neat-ts/src/architecture/network.ts:17-39 | the constructor is the rebuild over its planned links and gates nothing |
| Constructor.BuiltGrid | typescript/neat-ts/src/architecture/network.ts:33-38 | once every link is laid, the connection at turn a·output + b carries input a to output b with that turn's weight and no gater |
| Constructor.BuiltPlain | typescript/neat-ts/src/architecture/network.ts:33-38 | since the constructor makes no self-connection, every connection is filed under connections, in order |
| Constructor.LaidKinds | typescript/neat-ts/src/architecture/network.ts:29-32 | laying links keeps the node types and leaves the nodes unindexed |
| Constructor.NewShape | typescript/neat-ts/src/architecture/network.ts:17-39 | with both sizes given the constructor succeeds. It makes input + output fresh nodes, inputs first, none with a cached index, and one ungated connection from every input to every output, row by row. gates and selfconns are empty and dropout is 0 |
| Merging.Redirect | typescript/neat-ts/src/architecture/network.ts:526-533 | the redirect loop changes only connections, and its only error is an undefined target |
| Merging.RedirectFails | typescript/neat-ts/src/architecture/network.ts:526-533 | the loop throws exactly when some input-typed source sits at a position beyond network1's nodes |
| Merging.RedirectKeeps | typescript/neat-ts/src/architecture/network.ts:526-533 | a connection not in network2's list is left alone |
| Merging.RedirectMoves | typescript/neat-ts/src/architecture/network.ts:526-533 | every listed connection ends up redirected by the rule |
| Merging.RedirectReverses | typescript/neat-ts/src/architecture/network.ts:528-531 | a connection leaving network2's input i now leaves network1's node at length − 1 − i, so the inputs meet network1's outputs in REVERSE order |
| Merging.Retype | typescript/neat-ts/src/architecture/network.ts:541-543 | the listed nodes from lo on become hidden, and no other node or field changes |
| Merging.DropInputsFront | typescript/neat-ts/src/architecture/network.ts:536-538 | the splice loop removes the first `input` nodes, or all of them when there are fewer |
| Merging.Fuse | typescript/neat-ts/src/architecture/network.ts:521-549 | a size mismatch is exactly the size error. On success the connections are network1's followed by network2's, and the nodes are network1's followed by network2's after its inputs. The result keeps network1's output count (as written) |
| Merging.FuseTail | typescript/neat-ts/src/architecture/network.ts:547 | the merged node list is network1's nodes followed by network2's past its inputs |
| Merging.FuseKinds | typescript/neat-ts/src/architecture/network.ts:536-547 | every merged node keeps its type, except network1's former outputs, which are hidden |
| Merging.FuseOk | typescript/neat-ts/src/architecture/network.ts:521-549 | laid-out networks of matching sizes always merge |
| Merging.FuseRedirects | typescript/neat-ts/src/architecture/network.ts:526-533 | in the merged heap, network2's input i feeds from network1's node at length − 1 − i |
| Merging.FuseLaidOutIff | typescript/neat-ts/src/architecture/network.ts:521-549 | as written, the merged network is laid out (inputs first, then exactly `output` trailing outputs) if and only if network1's output count equals network2's |
| Merging.FuseFixed | typescript/neat-ts/src/architecture/network.ts:546-549 | the corrected merge is the same, except that the result takes network2's output count |
| Merging.FuseFixedLaidOut | typescript/neat-ts/src/architecture/network.ts:521-549 | the corrected merge of laid-out networks is always laid out, with network1's input count and network2's output count |
| Merging.LaidOutUnique | typescript/neat-ts/src/architecture/network.ts:541 | a layout fixes the output count |
| Merging.NewLaidOut | typescript/neat-ts/src/architecture/network.ts:17-39 | a network made by the constructor is laid out |
| Merging.MirrorLaidOut | typescript/neat-ts/src/architecture/network.ts:517-518 | a copy of a laid-out network is laid out |
| Merging.MergeAsWritten | typescript/neat-ts/src/architecture/network.ts:515-550 | merge as written, copying through the unstamped toJSON; its errors are the size error and the copy errors |
| Merging.MergeAsWrittenThrows | typescript/neat-ts/src/architecture/network.ts:517 | when network1's first connection has an unindexed source, merge as written throws while copying |
| Merging.Copies | typescript/neat-ts/src/architecture/network.ts:517-518 | the two copies are made one after the other on the same arena |
| Merging.CopyShape | typescript/neat-ts/src/architecture/network.ts:517-518 | the copy of a replayable network mirrors it, and its nodes are appended in order |
| Merging.CopyLinks | typescript/neat-ts/src/architecture/network.ts:517-518 | the copy of a laid-out network is laid out, and holds each connection once and only from its own nodes |
| Merging.CopiesFacts | typescript/neat-ts/src/architecture/network.ts:517-518 | copying replayable, laid-out networks succeeds |
| Merging.CopiesFusable | typescript/neat-ts/src/architecture/network.ts:517-549 | good copies of networks of matching sizes can be fused |
| Merging.Merge | typescript/neat-ts/src/architecture/network.ts:515-550 | the corrected merge: corrected copies, then the corrected fuse |
| Merging.MergeLaidOut | typescript/neat-ts/src/architecture/network.ts:515-550 | merging replayable, laid-out networks of matching sizes succeeds. The result is laid out, has network1's input count and network2's output count, has all nodes but network2's inputs, and has every connection of both |
| Merging.MergeMismatch | typescript/neat-ts/src/architecture/network.ts:521-523 | merge throws the size error exactly when network1's output count differs from network2's input count |
| Groups.NewGroup | typescript/neat-ts/src/architecture/group.ts:25-29 | a new group holds `size` distinct fresh hidden nodes, each with its own self connection, and has recorded no connections. Nothing the arena already held changes |
| Groups.NewGroupIdle | typescript/neat-ts/src/architecture/group.ts:25-29 | no node of a new group projects anywhere |
| Groups.NewGroupLinked | typescript/neat-ts/src/architecture/group.ts:25-29 | making a group keeps the arena's links consistent |
| Groups.Settled | typescript/neat-ts/src/architecture/group.ts:178-182 | a bias, squash or type given to `set` replaces the node's own, and a missing one keeps it. Nothing else on the node changes |
| Groups.Set | typescript/neat-ts/src/architecture/group.ts:176-184 | every node of the group is settled, and every other node and every connection is left alone |
| Groups.SetIdempotent | typescript/neat-ts/src/architecture/group.ts:176-184 | setting the same values twice is the same as setting them once |
| Groups.Pairs | typescript/neat-ts/src/architecture/group.ts:74-115 | the node pairs `connect` wires. ONE_TO_ONE between groups of different sizes is the only error |
| Groups.PairsFromTo | typescript/neat-ts/src/architecture/group.ts:84-114 | every pair joins a group node to a target node |
| Groups.LinkPairs | typescript/neat-ts/src/architecture/group.ts:84-114 | the pairs are connected in order. The only error is a source that already projects to its target |
| Groups.LinkPairsOk | typescript/neat-ts/src/architecture/group.ts:84-114 | distinct pairs whose sources do not yet project to their targets all connect |
| Groups.LinkPairsProjects | typescript/neat-ts/src/architecture/group.ts:84-114 | after linking, the links and every earlier projection survive, and every pair projects |
| Groups.ConnectTo | typescript/neat-ts/src/architecture/group.ts:71-117 | with no method, a group is wired to another group ALL_TO_ALL and to itself ONE_TO_ONE. The connections made are returned, and also recorded in `self` under ONE_TO_ONE, or else in `out` and, for a group target, in the target's `in`. Its only errors are the size error and a pair that already projects |
| Groups.ConnectToProjects | typescript/neat-ts/src/architecture/group.ts:84-114 | after ALL_TO_ALL (or with a node target) every group node projects to every target node. After ALL_TO_ELSE it projects to every other target node, and after ONE_TO_ONE each node projects to its counterpart |
| Groups.ConnectToSucceeds | typescript/neat-ts/src/architecture/group.ts:94-97 | between distinct, not yet connected nodes, `connect` fails exactly when ONE_TO_ONE sizes differ |
| Groups.NewGroupsConnect | typescript/neat-ts/src/architecture/group.ts:75-79 | two new groups connected with no method are wired ALL_TO_ALL, with one connection per pair |
| Groups.GridWired | typescript/neat-ts/src/architecture/group.ts:85-93 | wiring every pair of the grid makes every node project to every target |
| Groups.UnequalWired | typescript/neat-ts/src/architecture/group.ts:87 | ALL_TO_ELSE skips exactly the pairs of a node with itself |
| Groups.ZipWired | typescript/neat-ts/src/architecture/group.ts:98-102 | ONE_TO_ONE wires node i to target node i |
| Groups.GateFrom | typescript/neat-ts/src/architecture/group.ts:137-170 | the gating loop changes gaters only, and only those of the connections asked for, using the group's own nodes. An empty group throws exactly when there is something to gate |
| Groups.GateBy | typescript/neat-ts/src/architecture/group.ts:122-171 | gating without a method is exactly the missing-method error. Otherwise the only error comes from an empty group, and only connections asked for get a group node as gater |
| Groups.GateByAssigns | typescript/neat-ts/src/architecture/group.ts:129-170 | with a non-empty group, gating succeeds. A connection asked for that its end offers gets, round robin, the group node at that end's place among the ends collected once each, and every other connection is unchanged |
| Groups.GateFromAssigns | typescript/neat-ts/src/architecture/group.ts:137-170 | from any point on, the loop assigns every selected connection the gater at its end's position, and leaves the others alone |
| Groups.GateByEmptyGroup | typescript/neat-ts/src/architecture/group.ts:138-169 | an empty group throws exactly when some connection asked for is offered by its end |
| Groups.DropLast | typescript/neat-ts/src/architecture/group.ts:196-201 | the backward scan removes the last recorded connection running along the pair, or nothing when there is none |
| Groups.NodeDisconnectCuts | typescript/neat-ts/src/architecture/group.ts:189-235 | `node.disconnect` keeps the links, only removes projections, and leaves the pair unconnected in the direction asked (both when two-sided) |
| Groups.NodeDisconnectEnds | typescript/neat-ts/src/architecture/group.ts:189-235 | `node.disconnect` moves no connection's ends |
| Groups.DisconnectFrom | typescript/neat-ts/src/architecture/group.ts:189-235 | disconnecting keeps the group's nodes and `self` list |
| Groups.DisconnectPairsCut | typescript/neat-ts/src/architecture/group.ts:193-212 | after the loop, no pair projects (nor the reverse pair when two-sided), and only projections were removed |
| Groups.DisconnectFromCuts | typescript/neat-ts/src/architecture/group.ts:189-235 | after `disconnect` no group node projects to a target node (nor the other way round when two-sided). The links hold and only projections were removed; this is the partner of ALL_TO_ALL `connect` |
| Groups.DropsRecorded | typescript/neat-ts/src/architecture/group.ts:196-201 | the loop removes from `out` exactly the connections recorded for those pairs |
| Groups.DisconnectUndoesConnect | typescript/neat-ts/src/architecture/group.ts:71-235 | disconnecting what an ALL_TO_ALL `connect` just wired gives the group back its `out` list |
| Architect.ListedNodesHold | typescript/neat-ts/src/architecture/architect.ts:16-31 | the list `Construct` collects holds every node of every part and nothing else |
| Architect.Retyped | typescript/neat-ts/src/architecture/architect.ts:35-45 | a node becomes an output exactly when it is typed output or neither projects nor gates. It becomes an input exactly when it is not an output but is typed input or has no incoming connection. Nothing else about it changes |
| Architect.RetypedIdempotent | typescript/neat-ts/src/architecture/architect.ts:35-45 | retyping a second time changes nothing, so a node listed twice ends up the same |
| Architect.Sort | typescript/neat-ts/src/architecture/architect.ts:34-46 | the backward partition loop retypes every listed node and leaves the connections alone. The inputs and outputs it pushes are the list's inputs and outputs in reverse order, and the nodes left in place are the rest in list order |
| Architect.SortRoles | typescript/neat-ts/src/architecture/architect.ts:34-46 | one step of the loop puts the node at the head of its role's pushed list, and retyping it keeps every role |
| Architect.KeepShares | typescript/neat-ts/src/architecture/architect.ts:34-47 | the inputs, the rest and the outputs together are a permutation of the listed nodes |
| Architect.KeepSameRoles | typescript/neat-ts/src/architecture/architect.ts:34-47 | the partition reads nothing of a node but its role |
| Architect.Gather | typescript/neat-ts/src/architecture/architect.ts:51-58 | the network's connection (or gate) index holds exactly the outgoing (or gated) connections of its nodes |
| Architect.Selfs | typescript/neat-ts/src/architecture/architect.ts:59-61 | the network's self-connection index holds exactly the nodes' self connections of non-zero weight |
| Architect.Construct | typescript/neat-ts/src/architecture/architect.ts:12-65 | its only error is the missing input/output error. On success every listed node is retyped, the connections are unchanged, and the indices gather the nodes' outgoing, gated and live self connections |
| Architect.ConstructThrows | typescript/neat-ts/src/architecture/architect.ts:48-50 | `Construct` throws exactly when no listed node becomes an input, or none becomes an output |
| Architect.ConstructLaysOut | typescript/neat-ts/src/architecture/architect.ts:47-63 | the network lists the inputs, then the rest in list order, then the outputs. `input` and `output` count the first and last blocks and are positive, the nodes are a permutation of the listed ones, and the network is laid out |
| Architect.ConstructKeepsCount | typescript/neat-ts/src/architecture/architect.ts:12-65 | a built network has as many nodes as were listed |
| Architect.ArrangedRoleAt | typescript/neat-ts/src/architecture/architect.ts:47 | the node at each position has the role of the block it sits in |
| Architect.ArrangedLaidOut | typescript/neat-ts/src/architecture/architect.ts:47-63 | once retyped, the arrangement has its inputs first and exactly `output` outputs last |
| Architect.Parts | typescript/neat-ts/src/architecture/architect.ts:70-77 | the groups are handed to `Construct` one entry each, in order |
| Architect.NewLayer | typescript/neat-ts/src/architecture/architect.ts:71-73 | a new group appends exactly `size` nodes to the arena |
| Architect.Feed | typescript/neat-ts/src/architecture/architect.ts:75 | connecting one layer to the next adds no node, and fails only as `group.connect` can |
| Architect.Stack | typescript/neat-ts/src/architecture/architect.ts:72-76 | the layer loop makes one group per size, each with that many nodes |
| Architect.PartsListed | typescript/neat-ts/src/architecture/architect.ts:70-77 | the layers together list as many nodes as the sizes add up to |
| Architect.Perceptron | typescript/neat-ts/src/architecture/architect.ts:66-78 | fewer than three layer sizes is exactly the too-few-layers error. A built perceptron has as many nodes as the sizes add up to |
| Architect.Repeat | typescript/neat-ts/src/architecture/architect.ts:87-101 | each option loop applies its operator exactly the given number of times |
| Architect.ScheduleAdds | typescript/neat-ts/src/architecture/architect.ts:80-101 | the operators `Random` applies start with `hidden` ADD_NODE, add exactly `hidden` nodes, and remove none |
| Architect.Evolve | typescript/neat-ts/src/architecture/architect.ts:87-101 | applying growing mutations in turn keeps the network indexed and the links consistent, and adds one node per ADD_NODE |
| Architect.Random | typescript/neat-ts/src/architecture/architect.ts:79-103 | a random network has input + hidden + output nodes |
| Architect.RandomNeedsBothEnds | typescript/neat-ts/src/architecture/architect.ts:85-89 | with hidden nodes asked for but no input or no output, the first ADD_NODE finds no connection to split and throws |
| Multi.At | typescript/neat-ts/src/multithreading/multi.ts:14 | reading an array past its end gives `undefined` |
| Multi.Cells | typescript/neat-ts/src/multithreading/multi.ts:13-18 | the inner copy loops read exactly `n` slots from the start, `undefined` past the end |
| Multi.CellsExact | typescript/neat-ts/src/multithreading/multi.ts:13-18 | a sample of the header's size is copied whole |
| Multi.Serialize | typescript/neat-ts/src/multithreading/multi.ts:9-21 | an empty dataset is exactly the error: there is no first sample to read the header from. Otherwise the header holds the first sample's input and output sizes |
| Multi.BodyLength | typescript/neat-ts/src/multithreading/multi.ts:11-19 | the body holds one slot per value of the header's shape, for every sample |
| Multi.BodyAt | typescript/neat-ts/src/multithreading/multi.ts:11-19 | the slot at row-major offset k·(ni+no) + j is input j of sample k, or output j − ni |
| Multi.SerializeLayout | typescript/neat-ts/src/multithreading/multi.ts:9-21 | input j of sample k lands at 2 + k·(ni+no) + j and output j at 2 + k·(ni+no) + ni + j. A sample shorter than the first one leaves `undefined` there |
| Multi.SerializeLength | typescript/neat-ts/src/multithreading/multi.ts:9-21 | a serialised dataset of n samples has 2 + n·(ni+no) entries |
| Multi.Window | typescript/neat-ts/src/multithreading/multi.ts:45-51 | a copy loop reads exactly `n` slots from its start |
| Multi.Groups | typescript/neat-ts/src/multithreading/multi.ts:43-54 | the loop yields an input array of `ni` entries and an output array of `no` entries per sample, alternating |
| Multi.GroupsCount | typescript/neat-ts/src/multithreading/multi.ts:43 | the loop reads ⌈body length / sample size⌉ samples |
| Multi.Deserialize | typescript/neat-ts/src/multithreading/multi.ts:40-56 | a zero sample size over a non-empty body is exactly the hang, since the loop bound is Infinity. Otherwise the result alternates arrays of the header's input and output sizes, and an array no longer than the header gives no samples |
| Multi.Interleave | typescript/neat-ts/src/multithreading/multi.ts:52-53 | the deserialised form of a dataset: each sample's input, then its output |
| Multi.GroupsBody | typescript/neat-ts/src/multithreading/multi.ts:40-56 | reading back a body written with uniform sizes gives the samples in order |
| Multi.RoundTrip | typescript/neat-ts/src/multithreading/multi.ts:9-56 | deserialising a serialised dataset with uniform sizes and a non-empty sample gives each sample's input and output back, in order |
| Multi.RoundTripEmptySamples | typescript/neat-ts/src/multithreading/multi.ts:42-43 | samples with no values do not survive the round trip: the result is empty |
| Multi.EncodeTerms | typescript/neat-ts/src/multithreading/multi.ts:31-33 | a record's terms take three slots each, followed by the -2 end marker |
| Multi.Encode | typescript/neat-ts/src/multithreading/multi.ts:22-35 | the array the activator reads starts with the input and output sizes |
| Multi.ParseTerms | typescript/neat-ts/src/multithreading/multi.ts:31-33 | the term loop stops at the end marker and never runs past the end. A missing marker is the hang, and a parse reads back exactly the encoding of its terms |
| Multi.ParseRecords | typescript/neat-ts/src/multithreading/multi.ts:24-35 | every parsed record list re-encodes to exactly the array read, and the only error is the hang |
| Multi.Parse | typescript/neat-ts/src/multithreading/multi.ts:22-35 | whatever parses is the encoding of its records under its own header |
| Multi.ParseTermsEncode | typescript/neat-ts/src/multithreading/multi.ts:31-33 | encoding terms that do not start with the end marker and parsing them gives them back, with the rest untouched |
| Multi.ParseRecordsEncode | typescript/neat-ts/src/multithreading/multi.ts:24-35 | encoded unambiguous records parse back to themselves |
| Multi.ParseEncode | typescript/neat-ts/src/multithreading/multi.ts:22-35 | encoding then parsing gives the records back |
| Multi.EncodeParse | typescript/neat-ts/src/multithreading/multi.ts:22-35 | parsing then encoding gives the array back, and what parses is unambiguous |
| Multi.ParsedRecordsUnambiguous | typescript/neat-ts/src/multithreading/multi.ts:24-35 | no parsed term starts with the end marker |
| Multi.Gain | typescript/neat-ts/src/multithreading/multi.ts:30-32 | without a gater (-1) the gain is 1. Otherwise it is the gater's activation |
| Multi.Fire | typescript/neat-ts/src/multithreading/multi.ts:25-34 | one record sets its node's state to the self gain times the self weight times the old state, plus the bias, plus the sum of its incoming terms, and its activation to the squash of that state. No other position changes |
| Multi.FireAll | typescript/neat-ts/src/multithreading/multi.ts:24-35 | firing the records keeps both arrays' lengths |
| Multi.FireAllUntouched | typescript/neat-ts/src/multithreading/multi.ts:24-35 | a position no record names keeps its activation and state |
| Multi.FireAllLast | typescript/neat-ts/src/multithreading/multi.ts:34 | the last record's node ends with the squash of its state as its activation |
| Multi.ActivateSerialized | typescript/neat-ts/src/multithreading/multi.ts:22-39 | its only error is a record without an end marker. On success the output is the last data[1] activations, and the arrays keep their lengths |
| Multi.Untouched | typescript/neat-ts/src/multithreading/multi.ts:23-37 | a position no record writes ends with the input value if it is an input position, and otherwise keeps its old activation |
| Attention.NewHeads | typescript/transformer-ts/src/multi-head-attention.ts:17-25 | the constructor fails exactly when the width does not split evenly over the heads (zero heads included). Otherwise the key and value widths are equal, and the heads times the head width give back the model width |
| Attention.CausalMask | typescript/transformer-ts/src/multi-head-attention.ts:151-161 | the mask is n × n, with a 1 exactly where the key position is at or before the query position |
| Attention.CausalRowOnes | typescript/transformer-ts/src/multi-head-attention.ts:151-161 | row i of the mask lets exactly i + 1 positions through: the query itself and everything before it |
| Attention.CausalDiagonal | typescript/transformer-ts/src/multi-head-attention.ts:156 | every position sees itself, and the last row sees every position |
| Attention.OnesAppend | typescript/transformer-ts/src/multi-head-attention.ts:155-157 | the count of open positions in a row adds up over the row's parts |
| Attention.AllOnes | typescript/transformer-ts/src/multi-head-attention.ts:156 | a row that is all ones opens every position |
| Attention.NoOnes | typescript/transformer-ts/src/multi-head-attention.ts:156 | a row of zeros opens no position |
| Transformer.FirstBad | typescript/transformer-ts/src/transformer-model.ts:152-157 | the first token the embedding rejects: every token before it is in the vocabulary and it is not |
| Transformer.EmbedTokens | typescript/transformer-ts/src/transformer-model.ts:151-158 | embedding succeeds exactly when every token is in the vocabulary, and then gives each token's own embedding row, in order. Otherwise the first bad token decides the error: at or beyond the vocabulary it is the vocabulary error, and a negative token reads a missing row |
| Transformer.ParameterCountClosedForm | typescript/transformer-ts/src/transformer-model.ts:176-208 | the parameter count is 3·V·d for the embeddings and projection, plus L·(12d² + 4d·dFF + 12d + 2dFF) for the encoder and decoder layers |
| Transformer.Max | typescript/transformer-ts/src/transformer-model.ts:172 | the maximum of a non-empty array is one of its entries and no entry exceeds it |
| Transformer.Argmax | typescript/transformer-ts/src/transformer-model.ts:171-173 | argmax is -1 exactly for an empty array. Otherwise it is the FIRST position holding the largest value |
| Transformer.GenerateSequence | typescript/transformer-ts/src/transformer-model.ts:129-149 | the generated sequence starts with the start token, and each later token is the model's choice given the tokens before it. It holds at most maxLength tokens after the start, no end token before its last, and it is shorter than that bound only when it stopped on the end token |
| MiniLlm.NewGeometry | typescript/simple-llm/src/miniLLM.ts:15-19 | a patch holds patchSize² values. The patch count is defined exactly when patchSize > 0, and then it times the patch size gives the image's inputDim² values |
| MiniLlm.EmbedPatches | typescript/simple-llm/src/miniLLM.ts:31-37 | a zero patch size over a non-empty image is exactly the hang. Otherwise the image is cut into consecutive patches of the patch size |
| MiniLlm.ChunksFlatten | typescript/simple-llm/src/miniLLM.ts:33-35 | the patches, concatenated, give back the image |
| MiniLlm.ChunkSizes | typescript/simple-llm/src/miniLLM.ts:33-35 | every patch but the last is full, and the last is non-empty |
| MiniLlm.ChunkCount | typescript/simple-llm/src/miniLLM.ts:33-35 | the number of patches is ⌈image length / patch size⌉ |
| MiniLlm.ExactChunks | typescript/simple-llm/src/miniLLM.ts:33-35 | an image of m full patches is cut into exactly m patches |
| MiniLlm.PatchCountMatches | typescript/simple-llm/src/miniLLM.ts:19-36 | when the patch width divides the image width, the image is cut into exactly the constructor's patch count |

## Left out

- Floating point. Weights, biases, states and activations are Dafny `real`s. The squash functions and their derivatives are parameters `(Squash, real) -> real`, and the `activations` table of `multithreading/multi.ts` is a sequence of such functions. Cost functions, rate schedules and the attention, softmax, feed-forward and normalisation arithmetic of the transformers are not modelled.
- Nodes.Activate: the eligibility and extended-trace updates of `node.activate` (node.ts:66-115) are not modelled. The dropout draw of `network.activate` is modelled by Networks.ActivateStep, with the random value taken from the stream.
- Nodes.Connect: the group branch (node.ts:213-221) is modelled separately by GroupTargets.ConnectGroup and GroupTargets.ConnectToGroup. The model does not dispatch on the target's kind.
- Nodes.WithErrors: it is defined only where the source computes with numbers. An output node needs a target, and any other node needs a derivative. Without them the source goes on with NaN values (node.ts:145, 152, 161). Nodes.TryPropagate reports those inputs as NotANumber and does not model the NaN state.
- Nodes.Propagate: it has the same two requirements as Nodes.WithErrors. Nodes.TryPropagate covers the rest of the inputs.
- Networks.Propagate: where a visited node would compute with NaN, the source goes on and changes weights and biases with NaN values. The model returns NotANumber instead of that state.
- Genes.Down: JavaScript enumerates integer keys in ascending order only below 2^32 − 1. Larger keys follow in insertion order, mixed with "NaN". The model walks every integer key by value, so it matches the source only while the end positions of every connection sum to less than 92,681 (Genes.IndexKeys). Beyond that, the child's connection order can differ, but which genes it keeps does not.
- Genes.Up: it has the same limit on key order as Genes.Down.
- Randomness. Every `Math.random()` is a value from a `Stream` passed in, and fresh weights and biases come from functions indexed by the fresh id. Their distributions are not modelled.
- `config.warnings` output is treated as silent.
- A throw discards the whole result. Where the source has already changed objects before it throws (a half-finished `remove`, `group.connect` or `mutate`), the model returns only the error.
- `layer.ts` and the LSTM, GRU, Hopfield and NARX builders of `architect.ts` only call the Group and Node primitives modelled here. For the same reason a `Layer` is not a `Construct` part or a `group.connect` target, so the Layer branches of group.ts:104-108 and architect.ts:22-27 are not modelled.
- Group activate, propagate and clear are per-node loops over the node operations and are not modelled separately.
- Network.test and the evolution loop of `neat.ts`, the workers, `counter.ts`, the Rust crate and the demo scripts are not part of this model.
- Architect.Perceptron: the contract states the argument check, the error set and the node count. The ALL_TO_ALL wiring between consecutive layers is stated by Groups.ConnectToProjects, not restated for the whole perceptron.
- Architect.Random: only the node count is stated. The options are naturals in which 0 means "not given", which matches `options.x || default` for every value but a negative one.
- Removal.Remove: the contract does not state that the recorded incoming sources and outgoing targets are exactly the removed node's neighbours, nor that the error paths other than an absent node are unreachable. Removal.RemoveRewires states the rewiring over the recorded ends.
- Merging.Copies: the second copy reads network2 from the original arena, not from the arena the first copy grew. A copy only appends to the arena, so the two readings agree.
- Merging.Redirect: when network2's input index lies beyond network1's node list, the source assigns `undefined` as the new source node and fails later. The model fails at that point with the undefined error.
- In `merge`, the redirected connections stay in the out-lists of network2's input nodes and are not added to those of network1's nodes. This follows the source, so the merged arena is not `Linked`, and no contract claims it is.
- Serialize.FromJson: the nodes that `new Network(input, output)` creates inside `fromJSON` are discarded right away, as in the source. The model appends only the nodes and connections that are rebuilt.
- toJSON writes no `selfconns` or `gates`, so the round trip gives a network without self-connections. The gates are restored through each record's `gater`.
- Multi.Deserialize: a zero sample size over a non-empty body makes the loop bound Infinity, and the source never returns. The model reports this as the hang error.
- Multi.ParseTerms: a record without its -2 end marker keeps the source's loop running forever. The model reports this as the hang error.
- MiniLlm.EmbedPatches: a zero patch size over a non-empty image never advances the loop. The model reports this as the hang error.
- The mutation table entry for SUB_CONN is named 'REMOVE_CONN', so a name lookup does not find it. The model keeps that name.
- Transformer.GenerateSequence: the model's forward pass and softmax are the parameter `next`, which chooses the following token from the tokens so far.

## Findings

| source | as written | input that shows it | evidently intended | confidence | as-written member | corrected member |
|---|---|---|---|---|---|---|
| typescript/neat-ts/src/architecture/network.ts:555-565 | each connection record takes `from`, `to` and `gater` from the node's cached `index`, which only crossOver and fromJSON set. toJSON never sets it, although the node records it writes carry `index: i` | `Network.fromJSON(new Network(1, 1).toJSON())`: the connection record has `from: undefined`, and fromJSON's `connect` on `nodes[undefined]` throws | set each node's index to its position before writing the connections, so that every network survives the round trip | not executed | Serialize.NewDoesNotRoundTrip | Serialize.RoundTripStamped |
| typescript/neat-ts/src/architecture/network.ts:515-550 | the merged network is network1 with network2's nodes and connections appended, and it keeps `network1.output` | network1 of 2 inputs and 2 outputs and network2 of 2 inputs and 3 outputs, both with their indices set (for example fresh from `fromJSON`): the result ends in 3 output nodes but has `output == 2` | the merged network takes `network2.output`, so that its last `output` nodes are its outputs | not executed | Merging.FuseLaidOutIff | Merging.FuseFixedLaidOut |
