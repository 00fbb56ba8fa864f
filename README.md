# auto-diff: dependency graph, network bookkeeping and tensor index arithmetic

This project is a Dafny model of three parts of the `auto-diff` automatic
differentiation library and its `tensor-rs` tensor crate.

- **The bipartite data/op graph** (`auto-diff/src/collection/graph.rs`).
  - A `Graph` holds two node sets (data and op) and four adjacency maps:
    `forward_dt_op`, `forward_op_dt`, `backward_dt_op` and
    `backward_op_dt`.
  - The model covers adding and deleting nodes, `connect`, decoupling one
    edge, the `list_*` queries, and the source and sink sets
    (`get_input_cache` / `get_output_cache`).
  - It also covers the readiness-driven `walk`. Each pass collects the
    candidate ops of the data in `jobs` and fires every candidate whose
    inputs all hold a value. The walk retires inputs and adds outputs, and
    stops after a pass that fires nothing.
  - The backward walk is the same loop over the swapped maps.
  - The graph is a class whose six fields the methods update in place
    (`graph.dfy`). Each method is specified by a function on a
    `GraphState` value (`graph_model.dfy`). The invariant `Valid` says the
    keys match the node sets and every edge is recorded in both
    directions. The lemmas in `graph_properties.dfy` prove that each
    operation keeps this invariant, and say which edges each operation
    adds or removes.
- **The computation network `Net`** (`src/compute_graph.rs`).
  - The network holds two arenas (tensors and ops), the `funcs`
    composition map, the `set_mark` set of input variables, the graph and
    the `data_grad` gradient map.
  - Tensors and ops are opaque type parameters. `apply` and `grad` are
    callbacks the model does not look into, so each walk returns the trace
    of the ops it fired.
  - `eval` walks forward from the marked ids. `bptt` rebuilds the gradient
    map and walks backward from the seeded ids. `bptt_scale` seeds the
    sinks.
  - The generational arena is modelled as a map from handles to values. An
    insert hands out a handle that is not live (`arena.dfy`).
- **The naive tensor's shape and index logic**
  (`tensor-rs/src/tensor/gen_tensor.rs`).
  - It covers row-major strides, `index2dimpos` / `dimpos2index` and their
    round trip (`shape.dfy`).
  - It covers `get`, `set` and `set_1d` on a buffer that is updated in
    place, and the constructors `new_raw`, `fill`, `zeros`, `ones` and
    `empty`.
  - It covers strided `get_patch` / `set_patch`, which use the odometer
    loop that walks a patch in row-major order.
  - It covers `_right_broadcast`, `_dim_statistic`, the shape rule of `mm`
    and the shape check of `equal`.
  - The tensor is a class `GenTensor` with fields `d` and `dim`
    (`gen_tensor.dfy`). Its methods are specified by functions on a
    `Tensor` value (`tensor_model.dfy`).

A Rust `panic!` (an explicit one, an `expect` on `None`, or an index out of
range) is modelled as the `Panic` value of `Outcome`. Rust `Result` errors
are modelled as `Err` values. Neither is a precondition. Examples from the
sources' tests and documentation are in `graph_examples.dfy` and
`tensor_examples.dfy`.

In the walk, `Retired` reads the consumer map of the direction of travel.
A backward walk has swapped that map for `backward_dt_op`
(`auto-diff/src/collection/graph.rs:282-287` and `333-337`).

## Model

| member | source | states |
|---|---|---|
| Arenas.EmptyArena | src/compute_graph.rs:23-24 | a new arena has no live entry and satisfies the arena invariant |
| Arenas.Insert | src/compute_graph.rs:46 | insert returns a handle that was not live, and stores the value under it |
| Arenas.Get | src/compute_graph.rs:110 | get succeeds exactly on a live handle, and returns its value |
| Arenas.Remove | src/compute_graph.rs:52 | remove succeeds exactly on a live handle, returns its value and drops only that entry |
| Arenas.RemoveValid | src/compute_graph.rs:52 | removing keeps the arena invariant |
| Arenas.GetInsert | src/compute_graph.rs:46-47 | after an insert the new handle reads the new value, and every other handle reads as before |
| Arenas.RemoveInsert | src/compute_graph.rs:46-53 | removing what was just inserted returns it and restores the live entries |
| Arenas.InsertAfterRemove | src/compute_graph.rs:52-58 | a removed handle is never handed out again |
| GraphModel.ViewOfValid | auto-diff/src/collection/graph.rs:279-287 | the three maps a walk reads, forward or swapped, cover the registered nodes and point only at registered nodes |
| GraphModel.CandidatesAdd | auto-diff/src/collection/graph.rs:293-299 | the candidates of one more job are the old candidates plus that job's consumers |
| GraphModel.CandidateHasInput | auto-diff/src/collection/graph.rs:293-304 | every candidate is a registered op with at least one input |
| GraphModel.FireEffect | auto-diff/src/collection/graph.rs:327-347 | after a firing the op is done; a node leaves `jobs` only if it is an input whose consumers are all done, and enters only if it is an output with a consumer |
| GraphModel.Finish | auto-diff/src/collection/graph.rs:357-361 | the walk returns `Ok` exactly when `jobs` is empty, and otherwise `Err(jobs)` |
| GraphModel.ReplayAppend | auto-diff/src/collection/graph.rs:304-350 | firing one more allowed op extends an admissible trace, and its state is one more `Fire` |
| GraphModel.FireableIsCandidate | auto-diff/src/collection/graph.rs:293-306 | an op with an input, all of whose inputs hold values, is among the candidates |
| GraphModel.ReplayWithin | auto-diff/src/collection/graph.rs:289-350 | along any admissible trace `jobs` stays within the data nodes and `done` within the op nodes |
| GraphModel.FinalSeedStays | auto-diff/src/collection/graph.rs:294-295 | a start node with no consumer in the direction of travel is never retired, whatever fires, so the walk can only end in `Err` |
| GraphModel.LiveJobsConsumed | auto-diff/src/collection/graph.rs:342-345 | started from the live start nodes, `jobs` only ever holds data that some op consumes |
| GraphModel.FinalNodesInert | auto-diff/src/collection/graph.rs:296-345 | nodes with no consumer change neither the candidates, nor which of them can fire, nor what a firing retires or produces |
| GraphModel.LiveStartReplay | auto-diff/src/collection/graph.rs:294-345 | from the live start nodes, `done` is the same as from the start as written, and `jobs` are the same minus the final start nodes |
| GraphModel.LiveStartAllowed | auto-diff/src/collection/graph.rs:296-350 | the same firings are allowed from both starts, and both walks stop at the same point |
| GraphModel.LiveStartAdmissible | auto-diff/src/collection/graph.rs:294-350 | a trace is admissible from the live start nodes exactly when it is admissible from the start as written |
| GraphProperties.AddDataEffect | auto-diff/src/collection/graph.rs:123-132 | `add_data` fails with no change on a registered id; otherwise it registers the id, keeps every edge and keeps the invariant |
| GraphProperties.AddOpEffect | auto-diff/src/collection/graph.rs:154-163 | `add_op` fails with no change on a registered id; otherwise it registers the id, keeps every edge and keeps the invariant |
| GraphProperties.DelDataInputsSymmetric | auto-diff/src/collection/graph.rs:135-151 | after `del_data` every input edge is still recorded in both directions |
| GraphProperties.DelDataOutputsSymmetric | auto-diff/src/collection/graph.rs:135-151 | after `del_data` every output edge is still recorded in both directions |
| GraphProperties.DelDataValid | auto-diff/src/collection/graph.rs:135-151 | `del_data` keeps the graph invariant |
| GraphProperties.DelDataEffect | auto-diff/src/collection/graph.rs:135-151 | `del_data` fails with no change on an unknown id; otherwise it removes only that node and exactly the edges that touch it |
| GraphProperties.DelOpInputsSymmetric | auto-diff/src/collection/graph.rs:166-182 | after `del_op` every input edge is still recorded in both directions |
| GraphProperties.DelOpOutputsSymmetric | auto-diff/src/collection/graph.rs:166-182 | after `del_op` every output edge is still recorded in both directions |
| GraphProperties.DelOpValid | auto-diff/src/collection/graph.rs:166-182 | `del_op` keeps the graph invariant |
| GraphProperties.DelOpEffect | auto-diff/src/collection/graph.rs:166-182 | `del_op` fails with no change on an unknown id; otherwise it removes only that op and exactly the edges that touch it |
| GraphProperties.AddDelDataRoundTrip | auto-diff/src/collection/graph.rs:123-151 | adding a fresh data node and deleting it gives back the same graph |
| GraphProperties.AddDelOpRoundTrip | auto-diff/src/collection/graph.rs:154-182 | adding a fresh op node and deleting it gives back the same graph |
| GraphProperties.ConnectInputsSymmetric | auto-diff/src/collection/graph.rs:256-259 | after `connect` every input edge is recorded in both directions |
| GraphProperties.ConnectOutputsSymmetric | auto-diff/src/collection/graph.rs:260-263 | after `connect` every output edge is recorded in both directions |
| GraphProperties.ConnectValid | auto-diff/src/collection/graph.rs:233-270 | `connect` keeps the graph invariant |
| GraphProperties.ConnectEffect | auto-diff/src/collection/graph.rs:233-270 | `connect` succeeds exactly when the op and every listed id are registered; on failure nothing changes; on success the edges are the old ones plus `d -> op` for each input and `op -> d` for each output |
| GraphProperties.ConnectIdempotent | auto-diff/src/collection/graph.rs:256-263 | connecting the same ids twice is the same as connecting them once |
| GraphProperties.DecoupleDataFuncEffect | auto-diff/src/collection/graph.rs:187-197 | `decouple_data_func` fails with no change when an endpoint is unregistered; otherwise it removes exactly the one input edge, which may already be absent, and keeps the invariant |
| GraphProperties.DecoupleFuncDataEffect | auto-diff/src/collection/graph.rs:200-208 | `decouple_func_data` fails with no change when an endpoint is unregistered; otherwise it removes exactly the one output edge, which may already be absent, and keeps the invariant |
| GraphProperties.InputCacheSources | auto-diff/src/collection/graph.rs:211-219 | the input cache holds exactly the data nodes that no op outputs |
| GraphProperties.OutputCacheSinks | auto-diff/src/collection/graph.rs:222-230 | the output cache holds exactly the data nodes that no op consumes |
| GraphProperties.ViewEdges | auto-diff/src/collection/graph.rs:279-287 | forward, the walk follows the edges as recorded; backward, it reads every edge reversed |
| Graphs.Graph.constructor | auto-diff/src/collection/graph.rs:31-40 | a new graph is empty and valid |
| Graphs.Graph.AddData | auto-diff/src/collection/graph.rs:123-132 | the fields and result are those of `GraphModel.AddData`, and the invariant holds |
| Graphs.Graph.AddOp | auto-diff/src/collection/graph.rs:154-163 | the fields and result are those of `GraphModel.AddOp`, and the invariant holds |
| Graphs.Graph.DelData | auto-diff/src/collection/graph.rs:135-151 | the fields and result are those of `GraphModel.DelData`, and the invariant holds |
| Graphs.Graph.RemoveData | auto-diff/src/collection/graph.rs:136-146 | the node is dropped, its two entries are removed, and it is pruned from each neighbour's set |
| Graphs.Graph.DelOp | auto-diff/src/collection/graph.rs:166-182 | the fields and result are those of `GraphModel.DelOp`, and the invariant holds |
| Graphs.Graph.RemoveOp | auto-diff/src/collection/graph.rs:167-177 | the op is dropped, its two entries are removed, and it is pruned from each neighbour's set |
| Graphs.Graph.DecoupleDataFunc | auto-diff/src/collection/graph.rs:187-197 | the fields and result are those of `GraphModel.DecoupleDataFunc`, and the invariant holds |
| Graphs.Graph.DecoupleFuncData | auto-diff/src/collection/graph.rs:200-208 | the fields and result are those of `GraphModel.DecoupleFuncData`, and the invariant holds |
| Graphs.Graph.Connect | auto-diff/src/collection/graph.rs:233-270 | every id is checked before any change; the fields and result are those of `GraphModel.Connect`, and the invariant holds |
| Graphs.Graph.AddEdges | auto-diff/src/collection/graph.rs:255-264 | both directions of each listed input edge and output edge are inserted |
| Graphs.Graph.ListData | auto-diff/src/collection/graph.rs:43-50 | every data node, each once |
| Graphs.Graph.ListOp | auto-diff/src/collection/graph.rs:52-59 | every op node, each once |
| Graphs.Graph.ListAsInput | auto-diff/src/collection/graph.rs:64-73 | fails exactly on an unregistered variable; otherwise returns exactly the ops it is an input of, each once |
| Graphs.Graph.ListAsOutput | auto-diff/src/collection/graph.rs:77-86 | fails exactly on an unregistered variable; otherwise returns exactly the ops it is an output of, each once |
| Graphs.Graph.ListInput | auto-diff/src/collection/graph.rs:90-99 | fails exactly on an unregistered op; otherwise returns exactly its inputs, each once |
| Graphs.Graph.ListOutput | auto-diff/src/collection/graph.rs:103-112 | fails exactly on an unregistered op; otherwise returns exactly its outputs, each once |
| Graphs.Graph.GetInputCache | auto-diff/src/collection/graph.rs:211-219 | the data nodes with no producer |
| Graphs.Graph.GetOutputCache | auto-diff/src/collection/graph.rs:222-230 | the data nodes with no consumer |
| Graphs.Graph.Walk | auto-diff/src/collection/graph.rs:274-369 | every firing is allowed: a candidate whose inputs all hold values, given its full input and output sets. An unregistered start node panics before any firing. A returned walk is quiescent and gives `Ok` exactly when `jobs` is empty |
| Graphs.PruneAll | auto-diff/src/collection/graph.rs:138-140 | removes the element from the set of every listed key and changes nothing else |
| Graphs.ExtendAll | auto-diff/src/collection/graph.rs:256-258 | adds the element to the set of every listed key and changes nothing else |
| Graphs.AllIn | auto-diff/src/collection/graph.rs:242-253 | true exactly when every listed id is registered |
| Graphs.InsertAll | auto-diff/src/collection/graph.rs:289-291 | the set plus every listed element |
| Graphs.SetToSeq | auto-diff/src/collection/graph.rs:45-48 | every element of the set, each once |
| Graphs.SubsetOf | auto-diff/src/collection/graph.rs:306-308 | true exactly when every element is in the other set |
| Graphs.EdgeOps | auto-diff/src/collection/graph.rs:293-299 | panics exactly when a job has no entry in `fdo`; otherwise returns the consumers of the jobs |
| Graphs.FireOp | auto-diff/src/collection/graph.rs:327-347 | the new `jobs` and `done` are those of `Fire` |
| Graphs.RunPass | auto-diff/src/collection/graph.rs:302-355 | each firing of the pass is allowed and extends the trace; a pass with no firing leaves the state unchanged and quiescent |
| GraphExamples.YGraphBuilt | auto-diff/src/collection/graph.rs:382-394 | the calls of `setup_y` all succeed and leave exactly the Y graph |
| GraphExamples.YYGraphBuilt | auto-diff/src/collection/graph.rs:405-425 | the calls of `setup_yy` all succeed and leave exactly the double-Y graph |
| GraphExamples.YGraphValid | auto-diff/src/collection/graph.rs:382-394 | the Y graph of the tests is valid |
| GraphExamples.YYGraphValid | auto-diff/src/collection/graph.rs:405-425 | the double-Y graph of the tests is valid |
| GraphExamples.YGraphCaches | auto-diff/src/collection/graph.rs:427-446 | the Y graph has 2 sources and 1 sink |
| GraphExamples.YYGraphCaches | auto-diff/src/collection/graph.rs:427-446 | the double-Y graph has 3 sources and 1 sink |
| GraphExamples.YYForwardWalk | auto-diff/src/collection/graph.rs:289-362 | forward from the sources, op 1 fires and then op 2; the walk is then quiescent with `jobs` empty, so it returns `Ok` |
| GraphExamples.YYBackwardWalk | auto-diff/src/collection/graph.rs:279-362 | backward from the sink, op 2 fires and then op 1; the walk then returns `Ok` |
| GraphExamples.RefireStep | auto-diff/src/collection/graph.rs:310-351 | in the re-fire graph the only allowed firing is op 0; `jobs` stays `{0}`, and `done` becomes `{0}` |
| GraphExamples.RefireNeverQuiescent | auto-diff/src/collection/graph.rs:310-354 | after any admissible trace, op 0 can still fire, so the walk never stops |
| GraphExamples.LoneVariableBackward | src/compute_graph.rs:133-142 | with one variable never connected, the only sink is that variable. The backward walk stops at once, and every trace leaves the walk in `Err`, so `bptt` panics at its `expect`. From the live start nodes nothing is seeded, and the walk returns `Ok` |
| ComputeGraph.Net.constructor | src/compute_graph.rs:21-30 | a new network is empty and valid |
| ComputeGraph.Net.InitVar | src/compute_graph.rs:45-49 | a fresh tensor slot holding an empty tensor; the same handle is added as a data node; nothing else changes |
| ComputeGraph.Net.DelVar | src/compute_graph.rs:51-54 | panics exactly on a handle with no tensor; otherwise removes the slot and the data node with its edges |
| ComputeGraph.Net.InitOp | src/compute_graph.rs:57-62 | a fresh op slot, registered as an op node, with an empty composition list |
| ComputeGraph.Net.InitFunc | src/compute_graph.rs:64-69 | a fresh `nop` op slot, registered as an op node, whose composition list is the given one |
| ComputeGraph.Net.GetSubFunc | src/compute_graph.rs:71-73 | panics exactly on a handle with no entry; otherwise returns the list as registered |
| ComputeGraph.Net.Connect | src/compute_graph.rs:76-79 | always creates a new op node, and panics when an id is not a data node; otherwise the graph is that op added and connected, and the op gets an empty composition list while every other `funcs` entry is kept |
| ComputeGraph.Net.SetMark | src/compute_graph.rs:82-84 | inserts into `set_mark` only, so a repeated call changes nothing more |
| ComputeGraph.Net.UnsetMark | src/compute_graph.rs:85-87 | removes from `set_mark` only, so a repeated call changes nothing more |
| ComputeGraph.Net.Eval | src/compute_graph.rs:95-131 | walks forward from exactly the marked ids, and returns the walk's `Ok`/`Err` unchanged |
| ComputeGraph.Net.ResetGrads | src/compute_graph.rs:145-156 | the gradient map holds the seeds, plus an empty tensor for every other data node, and nothing else |
| ComputeGraph.Net.Bptt | src/compute_graph.rs:144-194 | resets the gradients as above, then walks backward from exactly the seeded ids; a walk that returns `Err` panics |
| ComputeGraph.Net.BpttScale | src/compute_graph.rs:133-142 | seeds exactly the sinks, each with a value computed from its tensor, then back-propagates. A returned walk is quiescent with `jobs` empty. A panic means data were left in `jobs`. With a sink that no op produces, the call never returns |
| ComputeGraph.Net.VisitOp | src/compute_graph.rs:197-217 | visits each op node once, exactly when the allow and skip lists select it |
| ComputeGraph.SeededGradsMeaning | src/compute_graph.rs:146-156 | every seed survives, every other node gets an empty tensor, and nothing from before survives |
| ComputeGraph.CopyGrads | src/compute_graph.rs:147-150 | every seed is copied in over what the map held |
| ComputeGraph.FillGrads | src/compute_graph.rs:152-156 | every listed id without an entry gets an empty tensor; existing entries are kept |
| ComputeGraph.SeedAll | src/compute_graph.rs:134-140 | one seed per sink, computed from that sink's tensor |
| ComputeGraph.SelectedCases | src/compute_graph.rs:211-213 | no lists: all ops; only allow: the allowed ops; only skip: the others; both: allowed or not skipped |
| Shape.DigitsStep | tensor-rs/src/tensor/gen_tensor.rs:33-37 | one division step: the quotient by the first stride, then the digits of the remainder |
| Shape.Coords | tensor-rs/src/tensor/gen_tensor.rs:27-39 | the in-bounds coordinate whose offset is the given position |
| Shape.ProductConcat | tensor-rs/src/tensor/gen_tensor.rs:64-70 | the element count of a concatenated shape is the product of the parts' counts |
| Shape.ProductPositive | tensor-rs/src/tensor/gen_tensor.rs:110-123 | the element count is positive exactly when every dimension is |
| Shape.StridesCons | tensor-rs/src/tensor/gen_tensor.rs:164-175 | the strides are the first axis' stride followed by the strides of the remaining axes |
| Shape.StridesRecurrence | tensor-rs/src/tensor/gen_tensor.rs:164-175 | the last stride is 1 and each other stride is the next stride times the next dimension |
| Shape.StridesPositive | tensor-rs/src/tensor/gen_tensor.rs:164-175 | with positive dimensions every stride is positive |
| Shape.OffsetBound | tensor-rs/src/tensor/gen_tensor.rs:42-57 | the offset of an in-bounds coordinate is below the element count |
| Shape.OffsetOfDigits | tensor-rs/src/tensor/gen_tensor.rs:27-57 | `dimpos2index(index2dimpos(i)) == i` for every `i` below the element count, and the coordinate is in bounds |
| Shape.DigitsOfOffset | tensor-rs/src/tensor/gen_tensor.rs:27-57 | `index2dimpos(dimpos2index(p)) == p` for every in-bounds `p` |
| Shape.OffsetInjective | tensor-rs/src/tensor/gen_tensor.rs:42-57 | distinct in-bounds coordinates have distinct offsets |
| Shape.OffsetSplit | tensor-rs/src/tensor/gen_tensor.rs:164-175 | the offset in a shape `a + b` is the leading offset times the trailing count, plus the trailing offset |
| Shape.OffsetSuffix | tensor-rs/src/tensor/gen_tensor.rs:908-916 | an offset modulo the count of a trailing shape is the offset of the trailing part of the coordinate |
| TensorModel.ElementAtWellFormed | tensor-rs/src/tensor/gen_tensor.rs:184-202 | on a well-formed tensor, `get` succeeds exactly on in-bounds coordinates |
| TensorModel.GetAfterSet | tensor-rs/src/tensor/gen_tensor.rs:184-219 | after `set`, `get` at the written coordinate returns the value, every other coordinate reads as before, and `dim` is unchanged |
| TensorModel.Filled | tensor-rs/src/tensor/gen_tensor.rs:138-147 | a filled tensor has the given shape and one element per coordinate |
| TensorModel.FilledElements | tensor-rs/src/tensor/gen_tensor.rs:64-88 | every in-bounds coordinate of a filled tensor reads the fill value |
| TensorModel.PositionsMeaning | tensor-rs/src/tensor/gen_tensor.rs:371-377 | the `k`-th position of an axis is `start + k * step`; all of them are below the end, and the next would not be |
| TensorModel.PatchDataComplete | tensor-rs/src/tensor/gen_tensor.rs:386-409 | elements read one by one in row-major order of the patch make up the patch |
| TensorModel.PickAxis | tensor-rs/src/tensor/gen_tensor.rs:389-391 | axis `i` of a picked coordinate is `start + q[i] * step`, below the end |
| TensorModel.PickMeaning | tensor-rs/src/tensor/gen_tensor.rs:366-391 | a picked coordinate has `start + q[i] * step` on every axis, below that axis' end, and the step list covers every axis |
| TensorModel.PatchMeaning | tensor-rs/src/tensor/gen_tensor.rs:354-412 | a patch has the counts of positions as its shape, is well formed, and each element is the source element at the picked coordinate |
| TensorModel.AxesIncreasing | tensor-rs/src/tensor/gen_tensor.rs:371-377 | the positions of every axis strictly increase |
| TensorModel.PickInjective | tensor-rs/src/tensor/gen_tensor.rs:431-441 | different patch coordinates pick different coordinates |
| TensorModel.Target | tensor-rs/src/tensor/gen_tensor.rs:438-444 | the offset an element of `val` is written to lies inside the buffer |
| TensorModel.PatchWrites | tensor-rs/src/tensor/gen_tensor.rs:433-461 | the buffer after the writes keeps its length |
| TensorModel.WritableStep | tensor-rs/src/tensor/gen_tensor.rs:433-461 | one more write extends the written prefix by one element |
| TensorModel.TargetInjective | tensor-rs/src/tensor/gen_tensor.rs:431-444 | different elements of `val` are written to different offsets |
| TensorModel.PatchWritesWritten | tensor-rs/src/tensor/gen_tensor.rs:433-461 | after the writes, each written offset holds its element of `val`, so no later write overwrites an earlier one |
| TensorModel.PatchWritesUntouched | tensor-rs/src/tensor/gen_tensor.rs:433-461 | after the writes, every offset that no write targets holds its old value |
| TensorModel.SetPatchMeaning | tensor-rs/src/tensor/gen_tensor.rs:414-462 | `set_patch` puts each element of `val` at the coordinate its own coordinate picks, and leaves every other element unchanged |
| TensorModel.BroadcastTrailing | tensor-rs/src/tensor/gen_tensor.rs:895-916 | for well-formed operands, the cycling case pairs each element with the element of `o` at the trailing part of its coordinate |
| TensorModel.StatDataLength | tensor-rs/src/tensor/gen_tensor.rs:572-577 | the statistic's buffer has `outer * inner` values |
| TensorModel.StatDataAt | tensor-rs/src/tensor/gen_tensor.rs:572-577 | value `k * inner + j` is the closure at outer block `k` and inner position `j` |
| TensorModel.ReducedDimMeaning | tensor-rs/src/tensor/gen_tensor.rs:537-555 | the reduced shape sets the axis to 1 or drops it, keeps every other axis, and counts outer times inner elements |
| TensorModel.StatisticShape | tensor-rs/src/tensor/gen_tensor.rs:532-583 | on an axis in range the statistic is well formed, with the reduced shape and `outer * inner` values |
| TensorModel.StatisticAt | tensor-rs/src/tensor/gen_tensor.rs:556-577 | each value is the closure applied to the axis size, the block, the position, `inner`, and the axis stride, which equals `inner` |
| TensorModel.MmAcceptsMismatch | tensor-rs/src/tensor/gen_tensor.rs:953-976 | as written, a 2 x 1 matrix times a 2 x 2 matrix is accepted with a 2 x 2 result |
| TensorModel.MmAsWrittenShape | tensor-rs/src/tensor/gen_tensor.rs:953-976 | on well-formed matrices with positive sizes, `mm` as written succeeds exactly when `a`'s column count is at most `b`'s row count |
| TensorModel.MmCheckedShape | tensor-rs/src/tensor/gen_tensor.rs:979-982 | the checked product succeeds exactly on two matrices with matching inner sizes, with shape rows of `a` by columns of `b` |
| GenTensors.ElementCount | tensor-rs/src/tensor/gen_tensor.rs:111-114 | the product of the shape |
| GenTensors.Fill | tensor-rs/src/tensor/gen_tensor.rs:138-147 | the fill value once per coordinate of the shape |
| GenTensors.Empty | tensor-rs/src/tensor/gen_tensor.rs:110-123 | the given shape, and one element per coordinate |
| GenTensors.AxisPositions | tensor-rs/src/tensor/gen_tensor.rs:371-376 | the positions of one axis, as `Positions` defines them |
| GenTensors.AxisIndices | tensor-rs/src/tensor/gen_tensor.rs:358-383 | the positions of every axis; panics exactly when a non-empty axis has a missing or zero step |
| GenTensors.Select | tensor-rs/src/tensor/gen_tensor.rs:389-391 | panics exactly when a patch coordinate runs past an axis' positions; otherwise the picked coordinate |
| GenTensors.Advance | tensor-rs/src/tensor/gen_tensor.rs:395-408 | the next coordinate in row-major order, or all zeros after the last one |
| GenTensors.DivideOut | tensor-rs/src/tensor/gen_tensor.rs:31-38 | panics exactly on a zero stride; otherwise the successive quotients by the strides |
| GenTensors.TrailingMatch | tensor-rs/src/tensor/gen_tensor.rs:898-906 | true exactly when `o` has fewer axes and they equal the trailing axes |
| GenTensors.Zip | tensor-rs/src/tensor/gen_tensor.rs:886-889 | element `i` is the closure on the two elements at `i` |
| GenTensors.PairWith | tensor-rs/src/tensor/gen_tensor.rs:891-893 | element `i` is the closure on element `i` and the single value |
| GenTensors.Cycle | tensor-rs/src/tensor/gen_tensor.rs:908-916 | panics exactly when there is an element and `o` is empty; otherwise element `i` pairs with `o[i % len]` |
| GenTensors.DropAxis | tensor-rs/src/tensor/gen_tensor.rs:542-548 | the shape with the axis left out |
| GenTensors.AxisProducts | tensor-rs/src/tensor/gen_tensor.rs:556-565 | the products of the dimensions before and after the axis |
| GenTensors.StatBlocks | tensor-rs/src/tensor/gen_tensor.rs:572-577 | the blocks of closure values the statistic specification describes |
| GenTensors.GenTensor.NewRaw | tensor-rs/src/tensor/gen_tensor.rs:17-24 | the buffer and the shape as given, with no check that they agree |
| GenTensors.GenTensor.Stride | tensor-rs/src/tensor/gen_tensor.rs:164-175 | the row-major strides: each is the product of the dimensions to its right |
| GenTensors.GenTensor.Index2DimPos | tensor-rs/src/tensor/gen_tensor.rs:27-39 | panics exactly on an index past the buffer or a zero stride; otherwise the successive quotients, which are the in-bounds coordinate of that offset when the index is below the element count |
| GenTensors.GenTensor.DimPos2Index | tensor-rs/src/tensor/gen_tensor.rs:42-57 | panics exactly unless the coordinate is in bounds; otherwise its row-major offset, below the element count |
| GenTensors.GenTensor.Get | tensor-rs/src/tensor/gen_tensor.rs:184-202 | the element at the coordinate, or a panic as `ElementAt` describes |
| GenTensors.GenTensor.Set | tensor-rs/src/tensor/gen_tensor.rs:203-219 | writes only the element at the coordinate; `dim` is kept; a panic changes nothing |
| GenTensors.GenTensor.Set1D | tensor-rs/src/tensor/gen_tensor.rs:220-226 | panics exactly on an offset past the buffer; otherwise writes only that element |
| GenTensors.GenTensor.GetPatch | tensor-rs/src/tensor/gen_tensor.rs:354-412 | the result is `Patch` of the tensor, whose meaning `PatchMeaning` states |
| GenTensors.GenTensor.ReadPatch | tensor-rs/src/tensor/gen_tensor.rs:386-409 | succeeds exactly when every picked coordinate can be read, and returns their elements in row-major order |
| GenTensors.GenTensor.ReadAt | tensor-rs/src/tensor/gen_tensor.rs:388-392 | the element picked by the `u`-th patch coordinate |
| GenTensors.GenTensor.SetPatch | tensor-rs/src/tensor/gen_tensor.rs:414-462 | shape and length are kept; it succeeds exactly when the specification does, and then the buffer is `SetPatchSpec`, whose meaning `SetPatchMeaning` states |
| GenTensors.GenTensor.WritePatch | tensor-rs/src/tensor/gen_tensor.rs:433-461 | succeeds exactly when every element of `val` can be written, and then the buffer holds all the writes in row-major order |
| GenTensors.GenTensor.WriteAt | tensor-rs/src/tensor/gen_tensor.rs:438-444 | writes element `u` of `val` where its coordinate picks, or panics with nothing written |
| GenTensors.GenTensor.RightBroadcast | tensor-rs/src/tensor/gen_tensor.rs:879-919 | the result is `Broadcast`: it keeps this tensor's shape, and pairs elements by position, with the single element, or cycling through `o` |
| GenTensors.GenTensor.DimStatistic | tensor-rs/src/tensor/gen_tensor.rs:532-583 | the result is `Statistic`, whose shape and values `StatisticShape` and `StatisticAt` state |
| GenTensors.GenTensor.Equal | tensor-rs/src/tensor/gen_tensor.rs:1184-1202 | true exactly when the shapes are equal, the buffers are equally long, and every pair of elements is close |
| TensorExamples.StrideExample | tensor-rs/src/tensor/gen_tensor.rs:156-163 | the strides of `[3, 5, 2]` are `[10, 2, 1]` |
| TensorExamples.Index2DimPosExample | tensor-rs/src/tensor/gen_tensor.rs:1411-1418 | position 10 of a `[10, 5, 3, 4]` tensor is `[0, 0, 2, 2]` |
| TensorExamples.GetExample | tensor-rs/src/tensor/gen_tensor.rs:177-183 | coordinate `[1, 1]` of the `[2, 3]` tensor holding 1 to 6 reads 5 |
| TensorExamples.GetPatchExample | tensor-rs/src/tensor/gen_tensor.rs:1460-1465 | the patch `[0,2) x [0,2) x [2,3)` of `arange(30)` shaped `[2, 3, 5]` is `[2, 7, 17, 22]` shaped `[2, 2, 1]` |

## Left out

- Graphs.Graph.Walk: the number of passes is bounded by a `fuel` parameter. The source loop can run forever: `walk` never checks `done` before firing, so an op whose input stays in `jobs` fires again on every pass. `GraphExamples.RefireNeverQuiescent` exhibits such a graph. Termination and "each op fires once" are therefore not claimed.
- Graphs.Graph.Walk and ComputeGraph.Net.BpttScale keep the start set as written. The corrected start set, `GraphModel.LiveStart`, is related to it by lemmas but is not what the network methods run.
- Graphs.Graph.Walk: within a pass the candidates are taken in an unspecified order, which includes the ascending order of the `BTreeSet`. The callback receives the input and output sets, not the ordered slices.
- Graphs.Graph.ListData, ListOp and the `list_*` queries: they return each element once but do not promise ascending order.
- `apply` and `grad` of an op are left out, as are the tensor reads inside the `eval`/`bptt` closures. They are foreign callbacks; the walks report the ops they fire instead.
- ComputeGraph.Net.Bptt: the `expect` on the walk's result is modelled as a panic outcome. A walk that panics on an unregistered seed is also a panic.
- ComputeGraph.Net.BpttScale: `Tensor::fill(size, r)` is the parameter `seedOf`, because tensor sizes and floats are outside the network model.
- ComputeGraph.Net.DelVar and Net.Eval: `del_var` does not remove the id from `set_mark`. A later `eval` then panics on that id (the model's `Panicked`).
- The `Var` side of `init_var`, storing the id with `set_id`, is outside the model. `InitVar` returns the id instead.
- `Net::new` has no parameters in the source. The model's constructor takes the empty tensor and the `nop` op as values.
- `visit_data` is left out: it looks data ids up in the ops arena, so nothing meaningful can be specified.
- `get_data`, `get_data_mut` and `get_grad` only return references to fields.
- The generational arena's internals are not part of this model. An arena is a map plus a counter that never hands out the same handle twice.
- GenTensors.Empty: the contents of `empty` are uninitialised memory, so the model says nothing about them (`junk`).
- `zeros` and `ones` are `Fill` with the zero or one value. `zeros_like`, `ones_like`, `arange`, `get_mut`, `from_record` and `_iter_patch` are not modelled.
- All floating-point element arithmetic is left out: the pointwise operations, the sums of `mm`/`matmul`/`outer`, and the values of statistics. `_dim_statistic` takes its closure as a parameter, and `equal`'s tolerance test `|a - b| > sqrt(min_positive)` is the parameter `close`.
- Integers are unbounded. `usize` overflow in products of dimensions and offsets is not modelled.
- GenTensors.AxisIndices: a zero step on a non-empty axis makes the source loop forever. A step list shorter than the axes is an index out of range. The model treats both as `Panic`.
- GenTensors.GenTensor.SetPatch: the buffer left behind by a panic part-way through is only constrained to keep its length. The writes made before the panic stay, but the model does not state them.
- The `set_patch` test example (a `[1, 3, 5]` block of ones written into `arange(30)`) is not stated as a concrete lemma. `SetPatchMeaning` covers it in general.
- `mm` is modelled for its shape and its panics only, and `matmul` only for the inner-size check it makes.

## Findings

| source | as written | input that shows it | evidently intended | confidence | as-written member | corrected member |
|---|---|---|---|---|---|---|
| tensor-rs/src/tensor/gen_tensor.rs:953-976 | `mm` checks only that both operands are matrices; it never compares `a`'s column count with `b`'s row count | `a.dim = [2, 1]` (2 elements), `b.dim = [2, 2]` (4 elements): accepted, with a `[2, 2]` result computed from the first row of `b` only | panic on mismatched inner sizes, as `matmul` does at line 980 | not executed | TensorModel.MmAsWritten (TensorModel.MmAcceptsMismatch, TensorModel.MmAsWrittenShape) | TensorModel.MmChecked (TensorModel.MmCheckedShape) |
| auto-diff/src/collection/graph.rs:294-295 | `walk` puts every start node into `jobs`. It keeps outputs with no consumer out of `jobs` (lines 342-345) but does not do the same for start nodes. A start node with no consumer in the direction of travel is never retired, and the walk ends in `Err`. `bptt_scale` seeds every sink (src/compute_graph.rs:134-141), and `bptt` panics on that `Err` (src/compute_graph.rs:193) | a net with one variable that was never connected: `bptt_scale` seeds it, and the backward walk returns `Err({0})` | a start node with no consumer counts as final, like an output, so the walk does the same firings and returns `Ok` | not executed | GraphModel.FinalSeedStays (GraphExamples.LoneVariableBackward, ComputeGraph.Net.BpttScale) | GraphModel.LiveStartReplay (GraphModel.LiveStart, GraphModel.LiveStartAllowed, GraphModel.LiveStartAdmissible, GraphModel.LiveJobsConsumed) |
