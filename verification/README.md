# dgswemv2: a verified model of the discrete machinery

dgswemv2 is a finite-element solver for shallow water and dispersive (Green-Naghdi) waves that runs on many ranks. This
project models the discrete, stateful machinery around its numerical kernels and proves what the solver relies on. Numbers
are exact integers and reals.

Run `dafny verify dfyconfig.toml` with Dafny 4.11.

## What is modelled

Code that works step by step is a class or a method over arrays, sequences and maps, proved against a specification
function; the theorems are about those functions and about runs.

* **Global numbering** (`DofNumbering`, `SimUnit`, `RankNumbering`, `IndexExchange`, `IndexMessages`,
  `PipelineNumbering`, `PipelineMessages`). Each sim unit numbers its own edges, two exclusive scans and a shift make
  the numbers global, owners of cut edges announce their first index in one round of messages, followers count on from
  it. The result is one bijection onto 0..N-1 over the whole machine, and both sides of every cut face agree after
  every interleaving of the messages.
* **Halo exchange** (`HaloProtocol`). Units, threads and messages as a state machine over one reused buffer a channel:
  invariants of every interleaving, no rewriting of a buffer in flight, no deadlock, termination.
* **Bathymetry derivatives** (`Derivatives`, `DerivativeLoops`, `DistributedDerivatives`). Three passes, each with a
  halo round. After each, the distributed program has on every element what the serial one has, for every partition
  and interleaving. Integration, evaluation and mass matrices are arbitrary operators, the same for interface and
  distributed sides.
* **Mesh topology** (`EdgeDictionary`, `MeshTables`, `Partitioning`, `DistributedInterfaces`, `MirroredReading`,
  `Preparation`, `BufferOffsets`, `RawBoundaries`, `FaceFates`, `Pipeline`, `OmpiCommunicator`). From the edge
  dictionary to submeshes, cut-face files, their two readers, buffer slots and the objects of each unit. Each stage
  proves the assumption of the next one: `Preparation` runs the first half and establishes what the second half
  assumes, `Pipeline` joins the result to the derivative theorem, `PipelineNumbering` to the numbering theorem, and
  `OmpiCommunicator` to the channels of the exchange.
* **Time stepping** (`SspRk`, `SspTables`, `SspSchemes`, `Strang`, `HpxChannels`). Bounds and totals over runs of any
  length, for each of the twelve schemes; saving and loading, the three-phase splitting, and the numbers that identify
  messages.
* **Slope limiter** (`SlopeLimiter`, `SlopeLimiterKernel`). The kernel keeps cell means, and leaves an unlimited
  element alone.
* **Basis** (`Jacobi`, `JacobiExpansion`, `JacobiDerivative`, `Dubiner`). The recurrence written out as a polynomial,
  its derivative, and agreement of special and general formulas at the collapsed vertex.
* **Meshes and graphs** (`QuadMesh`, `Adcirc`, `CsrMatrix`). Exact descriptions of generated and looked-up tables.

`Sequences`, `Reals`, `EdgeTypes` and `Sides` hold shared definitions.

## Where the code does not keep a promise

* The decimals of five of the twelve Runge-Kutta tables do not sum to one in every row: there exact conservation holds
  only for zero totals, and for the other seven always (`SspSchemes.SchemeConservesIff`).
* A tag is negative, which MPI forbids, exactly when the first submesh id has its sixteenth bit set
  (`HaloProtocol.TagIsNonNegativeIff`).
* An edge with three or more triangles silently drops the ones in between (`EdgeDictionary.FanLosesMiddle`, on a mesh
  that `EdgeDictionary.FanIsAccepted` shows to be accepted); all shared faces are paired exactly on manifold meshes
  (`EdgeDictionary.PairsAllIffManifold`).
* A face marked as distributed twice would wrap around to a boundary type (`EdgeTypes.MarkOnceOnly`); the partitioner
  marks each side once (`Partitioning.MarkSplitFaces`).
* With the Strang stepper a reported time stamp repeats an earlier one exactly while the second stepper is current
  (`Strang.TimestampRepeatsIff`); for a single Runge-Kutta stepper it never does (`HpxChannels.GenerationNamesStage`).

## Model

| member | source | states |
|---|---|---|
| `SimUnits.SimUnit.ParallelPreSend` | source/problem/Green-Naghdi/discretization_EHDG/kernels_preprocessor/ehdg_gn_pre_init_global_prob.hpp:21-134 | The three loops over a unit's edges leave exactly the numbering specification, and the returned offset grew by the unknowns of the owned edges only: a cut edge that the far side owns takes no index. |
| `SimUnits.SimUnit.FinalizePreSend` | source/problem/Green-Naghdi/discretization_EHDG/kernels_preprocessor/ehdg_gn_pre_init_global_prob.hpp:157-218 | Every interface, boundary and owned cut edge is shifted, the edge's and the boundary's copies together; every owner leaves its first index in its slot of the send buffer and nothing else there changes. |
| `SimUnits.SimUnit.PostReceive` | source/problem/Green-Naghdi/discretization_EHDG/kernels_preprocessor/ehdg_gn_pre_init_global_prob.hpp:220-284 | Followers take over the announced index and count on; every edge learns where its vector starts in the rank's list, which grows by exactly the unit's vectors in visiting order. |
| `DofNumbering.OwnedEdgeRange` | source/problem/Green-Naghdi/discretization_EHDG/kernels_preprocessor/ehdg_gn_pre_init_global_prob.hpp:21-218 | Numbering from 0 and shifting by any offset gives edge j the consecutive range at its own place in the scan of the owned widths. |
| `DofNumbering.PostedSlot` | source/problem/Green-Naghdi/discretization_EHDG/kernels_preprocessor/ehdg_gn_pre_init_global_prob.hpp:203-214 | With distinct slots, an owner's first index survives in its slot whatever the other edges write afterwards. |
| `RankNumbering.RotateRight` | source/problem/Green-Naghdi/discretization_EHDG/kernels_preprocessor/ehdg_gn_pre_ompi.hpp:32-36 | The in-place rotation brings the last entry to the front and keeps the others in order. |
| `RankNumbering.ExclusiveScanInPlace` | source/problem/Green-Naghdi/discretization_EHDG/kernels_preprocessor/ehdg_gn_pre_ompi.hpp:28-42 | Rotating, clearing the front and adding up in place turns the array into its exclusive prefix sums. |
| `RankNumbering.ScanTotals` | source/problem/Green-Naghdi/discretization_EHDG/kernels_preprocessor/ehdg_gn_pre_ompi.hpp:60-81 | The root learns the global count and overwrites the gathered totals by the first index of every rank. |
| `RankNumbering.NumberRank` | source/problem/Green-Naghdi/discretization_EHDG/kernels_preprocessor/ehdg_gn_pre_ompi.hpp:21-42 | First phase of a rank, over objects: all units are numbered from 0, and the rank's total and its units' offsets are those of the machine-wide scans. |
| `RankNumbering.ShiftRank` | source/problem/Green-Naghdi/discretization_EHDG/kernels_preprocessor/ehdg_gn_pre_ompi.hpp:97-111 | Second phase, with the offset scattered by the root: the units hold exactly their share of the machine-wide numbering. |
| `RankNumbering.CollectIndices` | source/problem/Green-Naghdi/discretization_EHDG/kernels_preprocessor/ehdg_gn_pre_ompi.hpp:113-135 | After the exchange all units are completed in turn and the rank's list is the concatenation of their vectors. |
| `RankNumbering.RankListServesEveryEdge` | source/problem/Green-Naghdi/discretization_EHDG/kernels_preprocessor/ehdg_gn_pre_init_global_prob.hpp:220-284 | In the rank's finished list, the slice at an edge's solution offset is that edge's own index vector, for every edge of every unit of the rank. |
| `DofNumbering.GlobalNumberingIsBijection` | source/problem/Green-Naghdi/discretization_EHDG/kernels_preprocessor/ehdg_gn_pre_ompi.hpp:21-111 | Read in order, the owned index vectors of the whole machine are 0, 1, ..., N-1, for any number of ranks, units and edges of any width. |
| `DofNumbering.NoIndexTwice` | source/problem/Green-Naghdi/discretization_EHDG/kernels_preprocessor/ehdg_gn_pre_ompi.hpp:21-111 | An index that lies in the vectors of two owned edges anywhere on the machine belongs to one edge. |
| `DofNumbering.EveryIndexOnce` | source/problem/Green-Naghdi/discretization_EHDG/kernels_preprocessor/ehdg_gn_pre_ompi.hpp:21-111 | Every index below the global count is in the vector of some owned edge. |
| `IndexExchange.OwnerAnnounces` | source/problem/Green-Naghdi/discretization_EHDG/kernels_preprocessor/ehdg_gn_pre_init_global_prob.hpp:203-214 | When the sends start, the owner's slot holds the first index of its edge in the global numbering. |
| `IndexExchange.FollowerHears` | source/problem/Green-Naghdi/discretization_EHDG/kernels_preprocessor/ehdg_gn_pre_init_global_prob.hpp:246-262 | What a follower finds in its slot is the first index that the other side of its edge announced. |
| `IndexExchange.CutEdgeAgrees` | source/problem/Green-Naghdi/discretization_EHDG/kernels_preprocessor/ehdg_gn_pre_init_global_prob.hpp:220-284 | Both sides of a cut edge end with the same full-length index vector, stored in edge and boundary, and exactly one of them numbered it. |
| `IndexExchange.SharedIndexMeansSameEdge` | source/problem/Green-Naghdi/discretization_EHDG/kernels_preprocessor/ehdg_gn_pre_init_global_prob.hpp:220-284 | Two sides of cut edges that share an index are the same side or the two sides of one edge. |
| `IndexExchange.LocalAndCutEdgesApart` | source/problem/Green-Naghdi/discretization_EHDG/kernels_preprocessor/ehdg_gn_pre_init_global_prob.hpp:157-284 | No interface or boundary edge shares an index with any side of a cut edge after the exchange. |
| `PipelineNumbering.PipelineCouplesNumbering` | source/problem/Green-Naghdi/problem_preprocessor/gn_pre_create_dbound.hpp:32-133 | For every mesh and partition, the cut edges, one-entry slots, buffer lengths and rank boundaries that initialization builds satisfy all that the index exchange relies on: slots exist and differ, channels join equally long buffers, and every cut edge has its other side at the mirrored slot. |
| `IndexExchange.CutEdgeTurns` | source/problem/Green-Naghdi/problem_preprocessor/gn_pre_create_edge_dbound.hpp:20-36 | Of the two sides of a cut edge one gets a counter-clockwise trace basis and the other a clockwise one; the counter-clockwise side is the one that numbers the edge. |
| `PipelineNumbering.CutFacesAreNumberedOnce` | source/problem/Green-Naghdi/problem_preprocessor/gn_pre_create_edge_dbound.hpp:20-36 | End to end: the two sides of every cut face end with one index vector, exactly one side numbered it, the one whose flag is counter-clockwise, and no other cut face anywhere shares an index with it. |
| `IndexMessages.IndexRoundWellFormed` | source/problem/Green-Naghdi/discretization_EHDG/kernels_preprocessor/ehdg_gn_pre_ompi.hpp:103-130 | The round of messages after the numbering is a run of the halo protocol: neighbours are mutual and units told apart by rank and number. |
| `IndexMessages.RoundDelivers` | source/problem/Green-Naghdi/discretization_EHDG/kernels_preprocessor/ehdg_gn_pre_ompi.hpp:103-130 | After every interleaving of the round, each unit's receive buffers hold what the wired ports deliver, and its cut edges are the completed ones. |
| `IndexMessages.MatesAgreeAfterRound` | source/problem/Green-Naghdi/discretization_EHDG/kernels_preprocessor/ehdg_gn_pre_ompi.hpp:103-130 | After every interleaving of the round, the two sides of a cut edge hold one full-length index vector in edge and boundary, and exactly one of them numbered it. |
| `PipelineMessages.PipelineRunsIndexRound` | source/problem/Green-Naghdi/discretization_EHDG/kernels_preprocessor/ehdg_gn_pre_ompi.hpp:103-130 | The rank boundaries that initialization builds are paired ports, one towards each neighbour, so the built units can run the round. |
| `PipelineMessages.CutFacesAgreeAfterRound` | source/problem/Green-Naghdi/discretization_EHDG/kernels_preprocessor/ehdg_gn_pre_ompi.hpp:103-135 | End to end, messages included: for every mesh, partition and interleaving, the two units at a cut face end with one index vector for it. |
| `HaloProtocol.TagIsNonNegativeIff` | source/communication/ompi_communicator.cpp:12-15 | A tag is non-negative if and only if the submesh id in its upper half is below 2^15 modulo 2^16. |
| `HaloProtocol.TagInjectiveIff` | source/communication/ompi_communicator.cpp:12-15 | Equal tags come from equal id pairs exactly up to truncation to sixteen bits. |
| `OmpiCommunicator.OMPICommunicator.constructor` | source/communication/ompi_communicator.cpp:3-19 | One rank boundary for every record of the metadata, in order, with the far rank for both directions and the tags of both directions. |
| `OmpiCommunicator.RequestsUseChannels` | source/communication/ompi_communicator.cpp:9-59 | The requests a unit makes from its own metadata use the channels of the halo protocol towards and from the unit beyond. |
| `OmpiCommunicator.RequestsMeet` | source/communication/ompi_communicator.cpp:9-59 | Although each unit reads its own file: the send request of one rank boundary and the receive request of another use one channel if and only if the two boundaries lead to each other. |
| `HaloProtocol.KeysAgree` | source/communication/ompi_communicator.cpp:12-59 | The channel the sender builds from ranks and submesh ids is the one the receiver listens on. |
| `HaloProtocol.KeyInjective` | source/communication/ompi_communicator.cpp:12-59 | Different ordered pairs of units never share a channel, also between the same two ranks. |
| `HaloProtocol.StepInv` | source/problem/Green-Naghdi/discretization_EHDG/kernels_preprocessor/ehdg_gn_pre_dbath_ompi.hpp:11-404 | Every step of every unit, every departure and every delivery keeps the protocol invariant, for any number of rounds, units and threads. |
| `HaloProtocol.EveryInterleavingAgrees` | source/problem/Green-Naghdi/discretization_EHDG/kernels_preprocessor/ehdg_gn_pre_dbath_ompi.hpp:11-404 | Every finished interleaving has computed, on every unit, what the rounds compute in lock step; so a round-r receive yields the round-r message. |
| `DistributedDerivatives.ExchangeFramed` | source/problem/Green-Naghdi/discretization_EHDG/kernels_preprocessor/ehdg_gn_pre_dbath_ompi.hpp:33-121 | The local work and the unpacking of the derivative passes leave the outgoing buffers alone, as the protocol needs. |
| `HaloProtocol.InFlightBufferUntouched` | source/problem/Green-Naghdi/discretization_EHDG/kernels_preprocessor/ehdg_gn_pre_dbath_ompi.hpp:11-404 | No step of any unit rewrites a send buffer between the start of its send and the moment its contents have left. |
| `HaloProtocol.DeliveryOnlyIntoPostedBuffer` | source/communication/ompi_communicator.cpp:61-76 | A receive buffer is written only between its owner's post and wait, and then holds the sender's message of the owner's round. |
| `HaloProtocol.StartsOnlyInactiveRequests` | source/communication/ompi_communicator.cpp:61-76 | Persistent requests are only started when they are inactive. |
| `HaloProtocol.NoDeadlock` | source/problem/Green-Naghdi/discretization_EHDG/kernels_preprocessor/ehdg_gn_pre_dbath_ompi.hpp:11-404 | In every reachable state in which some unit has not finished a move is possible, although a thread runs its units in a fixed order phase by phase. |
| `HaloProtocol.ExchangeTerminates` | source/problem/Green-Naghdi/discretization_EHDG/kernels_preprocessor/ehdg_gn_pre_dbath_ompi.hpp:11-404 | A run has a bounded number of moves and can be continued until every unit has finished. |
| `DerivativeLoops.AverageInPlace` | source/problem/Green-Naghdi/discretization_EHDG/kernels_preprocessor/ehdg_gn_pre_dbath_serial.hpp:20-60 | The in-place averaging reads no entry it has overwritten: both matrices end with the mean of the two old values at each physical point, reversed on the far side. |
| `DerivativeLoops.AverageWithMessage` | source/problem/Green-Naghdi/discretization_EHDG/kernels_preprocessor/ehdg_gn_pre_dbath_ompi.hpp:87-110 | A cut face's matrix is averaged in place with the far side's message, term by term with Gauss points reversed. |
| `DerivativeLoops.BuildMessage` | source/problem/Green-Naghdi/discretization_EHDG/kernels_preprocessor/ehdg_gn_pre_dbath_ompi.hpp:17-27 | The pushed-back message holds the trace Gauss point by Gauss point. |
| `DerivativeLoops.SetToSendBuffer` | source/communication/db_data_exchanger.hpp:49-51 | Overwrites exactly the slot of the message in the buffer. |
| `DerivativeLoops.GetFromReceiveBuffer` | source/communication/db_data_exchanger.hpp:53-57 | Reads exactly the slot at the exchanger's offset. |
| `DerivativeLoops.FittingPartIsReady` | source/problem/Green-Naghdi/discretization_EHDG/kernels_preprocessor/ehdg_gn_pre_dbath_ompi.hpp:11-121 | Objects that fit their mesh meet all that the loops rely on. |
| `DerivativeLoops.Discretization.Pack` | source/problem/Green-Naghdi/discretization_EHDG/kernels_preprocessor/ehdg_gn_pre_dbath_ompi.hpp:11-31 | The loop over cut faces leaves every trace in its hat and in its slot as the protocol's packing step specifies. |
| `DerivativeLoops.Discretization.Local` | source/problem/Green-Naghdi/discretization_EHDG/kernels_preprocessor/ehdg_gn_pre_dbath_ompi.hpp:33-82 | Elements, interfaces and boundaries are added in place to the rows exactly as the local step of the protocol specifies. |
| `DerivativeLoops.Discretization.UnpackReceived` | source/problem/Green-Naghdi/discretization_EHDG/kernels_preprocessor/ehdg_gn_pre_dbath_ompi.hpp:84-121 | After the receives, every cut face averages and adds its integral, then the mass matrices are applied: the unpacking step of the protocol. |
| `DerivativeLoops.Discretization.SerialPass` | source/problem/Green-Naghdi/discretization_EHDG/kernels_preprocessor/ehdg_gn_pre_dbath_serial.hpp:6-72 | One serial pass over an uncut mesh is the local step followed by the mass matrices. |
| `Derivatives.AverageIsSingleValued` | source/problem/Green-Naghdi/discretization_EHDG/kernels_preprocessor/ehdg_gn_pre_dbath_serial.hpp:20-60 | Averaged from either side of a face, the value at each physical point is the same. |
| `Derivatives.VisitsAddUp` | source/problem/Green-Naghdi/discretization_EHDG/kernels_preprocessor/ehdg_gn_pre_dbath_serial.hpp:6-200 | In whatever order faces are visited, an element ends with its interior integral plus each visited face's integral once. |
| `DistributedDerivatives.DecodeEncode` | source/problem/Green-Naghdi/discretization_EHDG/kernels_preprocessor/ehdg_gn_pre_dbath_ompi.hpp:17-110 | Unpacking what was packed gives the trace back, for every number of terms and Gauss points. |
| `DistributedDerivatives.PackedSlot` | source/problem/Green-Naghdi/discretization_EHDG/kernels_preprocessor/ehdg_gn_pre_dbath_ompi.hpp:11-31 | After all cut faces of a unit are packed, each slot still holds its own face's trace. |
| `DistributedDerivatives.HearsFarTrace` | source/problem/Green-Naghdi/discretization_EHDG/kernels_preprocessor/ehdg_gn_pre_dbath_ompi.hpp:84-121 | What a unit hears for a cut face in round r is the far element's trace of the undivided mesh, point for point. |
| `DistributedDerivatives.DistributedEqualsUndivided` | source/problem/Green-Naghdi/discretization_EHDG/kernels_preprocessor/ehdg_gn_pre_dbath_ompi.hpp:11-404 | For every partition that fits the mesh and every state of every interleaving: a unit that has unpacked r rounds holds on its elements the r-th derivatives of the undivided mesh (r = 1, 2, 3), and r is three once all have finished. |
| `DistributedDerivatives.SerialIsCurrent` | source/problem/Green-Naghdi/discretization_EHDG/kernels_preprocessor/ehdg_gn_pre_dbath_serial.hpp:6-200 | The serial program computes, pass by pass, the derivatives of the undivided mesh. |
| `DistributedDerivatives.DistributedEqualsSerial` | source/problem/Green-Naghdi/discretization_EHDG/kernels_preprocessor/ehdg_gn_pre_dbath_ompi.hpp:11-404 | The distributed program refines the serial one: whatever the partition, the interleaving and the order of visits, after each round the rows are those of the same pass of the serial run. |
| `Pipeline.PipelineBuildsNetwork` | source/problem/Green-Naghdi/problem_preprocessor/gn_pre_create_dbound.hpp:32-133 | The interfaces, boundaries, cut faces, slots, buffers and neighbours that initialization builds satisfy everything the distributed computation relies on. |
| `Pipeline.PipelineComputesDerivatives` | source/problem/Green-Naghdi/discretization_EHDG/kernels_preprocessor/ehdg_gn_pre_dbath_ompi.hpp:11-404 | End to end, from the partitioned mesh through files, readers and slots: in every state of the exchange each unit has on its elements the derivatives of the undivided mesh of as many orders as it has unpacked rounds. |
| `EdgeDictionary.KeyInjectiveIff` | source/preprocessor/mesh_metadata.cpp:28-46 | Two edges get the same 64-bit key if and only if they join the same two nodes, in either direction. |
| `EdgeDictionary.BuildDictionary` | source/preprocessor/mesh_metadata.cpp:28-46 | After the loops, every edge's entry holds its first user and, if there are several, its last; edges nobody uses have none. |
| `EdgeDictionary.AssignNeighbors` | source/preprocessor/mesh_metadata.cpp:48-82 | In whatever order the dictionary is visited, it succeeds exactly when every edge with one user has a boundary type and, on a barrier, an element across; then every face has the values of its entry. |
| `EdgeDictionary.Construct` | source/preprocessor/mesh_metadata.cpp:28-82 | Construction succeeds if and only if every face alone on its edge has a boundary type and, if that type is internal as for levees, an edge across that some element has; then the tables are those the dictionary prescribes. |
| `EdgeDictionary.FaceFate` | source/preprocessor/mesh_metadata.cpp:48-82 | For every list of triangles: an only user gets its boundary type without neighbour, or across a levee the first element that has the far edge; the first and last of several users become each other's neighbours; a user in between keeps the unset values. |
| `EdgeDictionary.ManifoldNeighbors` | source/preprocessor/mesh_metadata.cpp:48-82 | On a manifold mesh two faces on one edge are internal and name each other's elements. |
| `EdgeDictionary.LonelyFaceIsRim` | source/preprocessor/mesh_metadata.cpp:61-82 | A face alone on its edge has no neighbour and the type of the edge, or on a levee the element across it. |
| `EdgeDictionary.ThirdUserIsLost` | source/preprocessor/mesh_metadata.cpp:28-46 | A face strictly between the first and the last user of its edge shares the edge but gets neither neighbour nor internal type. |
| `EdgeDictionary.PairsAllIffManifold` | source/preprocessor/mesh_metadata.cpp:28-71 | All faces that share an edge become internal and name each other's elements if and only if at most two triangles meet at every edge. |
| `EdgeDictionary.FanLosesMiddle` | source/preprocessor/mesh_metadata.cpp:28-71 | Three triangles on one edge: the first and the last become neighbours and the one in between keeps the unset values. |
| `EdgeDictionary.FanIsAccepted` | source/preprocessor/mesh_metadata.cpp:28-82 | With an ordinary boundary file the constructor accepts those three triangles, so the loss does happen. |
| `EdgeDictionary.EdgeCount` | source/preprocessor/mesh_metadata.cpp:28-71 | On a manifold mesh three times the elements is twice the interior edges plus the boundary edges. |
| `MeshTables.TablesAreSimple` | source/preprocessor/mesh_metadata.cpp:48-82 | From a manifold list of triangles whose levees are described from both sides, and in which two triangles are joined at most once, the tables have symmetric neighbours, one shared face a pair, and internal type exactly on faces with a neighbour: what partitioning and pairing assume. |
| `MeshTables.LeveesAreMutual` | source/preprocessor/mesh_metadata.cpp:72-80 | When no levee node is listed twice, the element that lies across a levee face finds that face across from its own. |
| `Partitioning.RoundRobin` | partitioner/partition.cpp:96-116 | With one counter a node and one a rank, for every visiting order, each submesh gets the next rank of its node and the next number on that rank, and the counters end as the loads. |
| `Partitioning.PlacesDistinct` | partitioner/partition.cpp:96-132 | (rank, number on the rank) names a submesh. |
| `Partitioning.PlacesDense` | partitioner/partition.cpp:96-132 | Every number below a rank's load is given to some submesh of that rank. |
| `Partitioning.LoadOfRank` | partitioner/partition.cpp:96-116 | The load of the x-th rank of a node with c submeshes is c / ranks, plus one if x < c % ranks. |
| `Partitioning.Balanced` | partitioner/partition.cpp:96-116 | The loads of two ranks of one node differ by at most one, for every visiting order. |
| `EdgeTypes.MarkOnceOnly` | source/utilities/edge_types.hpp:4-22 | Marking an internal type once makes it distributed; marking it again wraps around the byte into a boundary type. |
| `Partitioning.MarkSplitFaces` | partitioner/partition.cpp:134-162 | Exactly the faces between different submeshes become distributed, on both sides, each once. |
| `DistributedInterfaces.CutPairs` | partitioner/write_distributed_interfaces.cpp:14-40 | Inserting all internal pairs and erasing those still internal in a submesh leaves exactly the difference. |
| `DistributedInterfaces.CutPairsAreSplit` | partitioner/write_distributed_interfaces.cpp:14-40 | The pairs left are exactly those with a face whose two elements lie in different submeshes. |
| `DistributedInterfaces.BuildShared` | partitioner/write_distributed_interfaces.cpp:41-81 | Every cut face is appended once, in visiting order, to the list of its pair of units, with the two elements and face numbers in the order of the pair. |
| `DistributedInterfaces.WriteFile` | partitioner/write_distributed_interfaces.cpp:83-104 | A unit's file holds exactly the records that mention it, in the order the pairs are visited. |
| `DistributedInterfaces.ReadFile` | source/preprocessor/mesh_metadata.cpp:147-220 | Reading succeeds if and only if every record mentions the unit, and then yields each record seen from the unit's side; otherwise it names an offending record. |
| `DistributedInterfaces.CodeDecodes` | partitioner/write_distributed_interfaces.cpp:41-81 | Encoding (rank, number) into one integer and decoding it are inverse for ranks below the number of localities. |
| `Preparation.SameTypeBeyond` | source/preprocessor/mesh_metadata.cpp:48-82 | A face with a neighbour and the face beyond, across an edge or a levee, have one boundary type. |
| `Preparation.AssignCodes` | partitioner/partition.cpp:96-132 | Elements get one code exactly when they are in one submesh, by the ranks and numbers of round robin. |
| `Preparation.Prepare` | partitioner/partitioner.cpp:65-98 | From the mesh file and any assignment of elements to submeshes on nodes: preparation succeeds exactly when the constructor does, and then tables, codes, marks, cut pairs and written lists meet everything that reading, initialization, numbering and the exchange assume of them. |
| `MirroredReading.FarTwice` | partitioner/write_distributed_interfaces.cpp:41-81 | With symmetric neighbours and one shared face a pair, the face beyond the face beyond is the face itself. |
| `MirroredReading.CodesNameParts` | partitioner/partition.cpp:96-132 | The codes made of the ranks and numbers of round robin tell submeshes apart. |
| `MirroredReading.ReadersMirror` | source/preprocessor/mesh_metadata.cpp:160-218 | For each neighbour a unit reads about, that neighbour reads about it exactly once, with in and ex sides exchanged and the faces in the same order. |
| `MirroredReading.ReadFacesAreCut` | source/preprocessor/mesh_metadata.cpp:160-218 | Every face a unit reads is a cut face of one of its elements, and its far side is in the neighbour named. |
| `MirroredReading.CutFaceIsRead` | source/preprocessor/mesh_metadata.cpp:160-218 | Every cut face of a unit's elements is read by it. |
| `MirroredReading.FacesReadOnce` | source/preprocessor/mesh_metadata.cpp:160-218 | No cut face is read twice by a unit, in the same or different rank boundaries. |
| `BufferOffsets.CommBufferOffsets` | source/problem/Green-Naghdi/discretization_EHDG/kernels_preprocessor/ehdg_gn_pre_create.hpp:13-27 | Returns the old ends of all buffers and moves each on by the width of its quantity. |
| `BufferOffsets.SlotsApart` | source/problem/Green-Naghdi/problem_preprocessor/gn_pre_create_dbound.hpp:32-133 | Slots of one quantity never overlap and lie inside the buffer as finally sized. |
| `RawBoundaries.EmplaceNext` | source/geometry/element.hpp:258-280 | Emplacing one more face under its type and key keeps the tables exactly those of the faces registered so far, the first face winning a key. |
| `RawBoundaries.PairFaces` | source/problem/SWE/problem_preprocessor/swe_pre_create_intface.hpp:14-82 | The erasing loop ends and makes one interface wherever a key's mirror image is still there, in key order; it stops with an error exactly when a levee interface lacks its data. |
| `RawBoundaries.MeshBuilder.CreateRawBoundaries` | source/geometry/element.hpp:258-280 | One element's three faces join the tables. |
| `RawBoundaries.MeshBuilder.CreateForRank` | source/problem/Green-Naghdi/problem_preprocessor/gn_pre_create_dbound.hpp:32-133 | Succeeds if and only if every face of the rank boundary is still in the tables and every levee among them has its data; then the faces are taken out, the cut faces appended with the slots handed out, and the buffers sized to end behind the last slot. |
| `RawBoundaries.MeshBuilder.CreateDistributedBoundaries` | source/problem/Green-Naghdi/problem_preprocessor/gn_pre_create_dbound.hpp:17-142 | Succeeds if and only if all metadata faces can be taken one after the other, levees with their data; then exactly these have left the tables. |
| `RawBoundaries.MeshBuilder.Initialize` | source/preprocessor/initialize_mesh.hpp:56-77 | Registers all faces and builds all objects; succeeds if and only if the input has the data of all levee, cut levee, tide and flow faces and the metadata matches the cut faces with nothing left over. |
| `RawBoundaries.LeftoverExact` | source/preprocessor/initialize_mesh.hpp:66-77 | The final check fires exactly when some registered face has no place to go. |
| `FaceFates.RegistersAll` | source/geometry/element.hpp:258-280 | With one shared face a pair no face of an element displaces another: the tables hold every face of the unit. |
| `FaceFates.InterfacesExact` | source/problem/SWE/problem_preprocessor/swe_pre_create_intface.hpp:14-82 | The table of an internal type becomes interfaces that join exactly the unit's uncut faces of that type with their far sides. |
| `FaceFates.NothingIsLeft` | source/preprocessor/initialize_mesh.hpp:66-77 | On tables and metadata as prepared no face is missing, named twice or left over, so the leftover check never fires. |
| `FaceFates.EveryFaceHasOneFate` | source/preprocessor/initialize_mesh.hpp:56-77 | Every face of every element ends in exactly one interface, boundary or distributed boundary, according to whether it is joined inside, on the rim or cut. |
| `SspRk.ESSPRKStepper.Advance` | source/simulation/stepper/explicit_ssp_rk_stepper.hpp:49-65 | Stage, step, time stamp and time move together so that timestamp = step * nstages + stage and t = step * dt stay true. |
| `SspRk.ESSPRKStepper.UpdateState` | source/simulation/stepper/explicit_ssp_rk_stepper.hpp:67-80 | The accumulating loop and the final swap leave the stage combination in the next entry, or after the last stage the step's result in entry 0. |
| `SspRk.ESSPRKStepper.Load` | source/simulation/stepper/explicit_ssp_rk_stepper.hpp:96-131 | Everything saved is restored and the step count is computed back from the time stamp. |
| `SspRk.LoadRecoversStep` | source/simulation/stepper/explicit_ssp_rk_stepper.hpp:96-131 | The quotient and remainder of step * nstages + stage are step and stage, so load returns the saved stepper. |
| `SspRk.StageKeepsBound` | source/simulation/stepper/explicit_ssp_rk_stepper.hpp:67-80 | If dt * brk <= tau * ark, ark >= 0 and the row sums to one, the stage keeps every convex bound that Euler steps up to tau keep. |
| `SspRk.RunKeepsBound` | source/simulation/stepper/explicit_ssp_rk_stepper.hpp:49-80 | In runs of any length, with the swaps, every stage value and completed step keeps such a bound. |
| `SspRk.RunCarries` | source/simulation/stepper/explicit_ssp_rk_stepper.hpp:49-80 | In runs of any length each step multiplies every linear total with zero rate by the gain of the tables. |
| `SspRk.RowSumsGainOne` | source/simulation/stepper/explicit_ssp_rk_stepper.cpp:30-68 | Rows that sum to one have gain exactly one. |
| `SspRk.RunConserves` | source/simulation/stepper/explicit_ssp_rk_stepper.hpp:49-80 | If the rows of the tables sum to one, runs of any length conserve every linear total with zero rate. |
| `SspRk.StepConservesIff` | source/simulation/stepper/explicit_ssp_rk_stepper.hpp:49-80 | A run that completes a step conserves a total with zero rate in it if and only if the tables' gain is one or the total is zero. |
| `SspRk.RunConservedIff` | source/simulation/stepper/explicit_ssp_rk_stepper.hpp:49-80 | Over a run with a completed step, a total with zero rate is conserved throughout if and only if the tables' gain is one or the total is zero. |
| `SspTables.InitializeCoefficients` | source/simulation/stepper/explicit_ssp_rk_stepper.cpp:16-258 | Entry by entry, the tables become those of the named scheme, for all twelve; other numbers are an error. |
| `SspSchemes.GainOneIff` | source/simulation/stepper/explicit_ssp_rk_stepper.cpp:30-253 | For positive tables whose row sums stray from one in one direction only, the gain is one if and only if every row sums to one: later stages never make up for an earlier one. |
| `SspSchemes.SchemeConservesIff` | source/simulation/stepper/explicit_ssp_rk_stepper.cpp:30-253 | For each of the twelve schemes, with its decimals taken exactly, a run conserves a total with zero rate if and only if the scheme is not one of (5,3), (7,3), (8,3), (5,4), (6,4) or the total is zero. |
| `SspSchemes.SchemeKeepsBoundsIff` | source/simulation/stepper/explicit_ssp_rk_stepper.cpp:30-253 | For each of the twelve schemes the bound condition holds if and only if its rows sum to one and its tightest pair of weights allows the step. |
| `SspSchemes.ShortSchemesAllow` | source/simulation/stepper/explicit_ssp_rk_stepper.cpp:30-66 | Up to four stages the bound condition holds if and only if dt <= tau, and for (4,3) if and only if dt <= 2 tau. |
| `Strang.SecondStrangStepper.Advance` | source/simulation/stepper/second_strang_stepper.hpp:52-69 | Only three of the four flag states occur; the current stepper is the one whose phase it is, and exactly one stage is counted. |
| `Strang.SecondStrangStepper.UpdateState` | source/simulation/stepper/second_strang_stepper.hpp:71-81 | The sub-stepper that updates is the one current reports stage, time and step length of. |
| `Strang.AfterCycles` | source/simulation/stepper/second_strang_stepper.hpp:23-69 | After k full cycles the first stepper has made 2k half steps, the second k steps, and their times are equal. |
| `Strang.ReportsByCount` | source/simulation/stepper/second_strang_stepper.hpp:39-69 | In every reachable state, which stepper is current and the time stamp it reports follow from the number of stages done. |
| `Strang.TimestampRepeatsIff` | source/simulation/stepper/second_strang_stepper.hpp:39-69 | Over all reachable states: the time stamp that is reported was reported before if and only if the second stepper is current. |
| `HpxChannels.GenerationInjective` | source/communication/hpx_communicator.cpp:31-43 | Two (time stamp, type) pairs have the same generation if and only if they are equal. |
| `HpxChannels.HPXCommunicator.SendAll` | source/communication/hpx_communicator.cpp:31-37 | Every boundary's buffer of the type is put under the generation of time stamp and type, and nothing else changes. |
| `HpxChannels.HPXCommunicator.ReceiveAll` | source/communication/hpx_communicator.cpp:39-53 | Every boundary's receive buffer of the type becomes the value under that generation. |
| `HpxChannels.GenerationNamesStage` | source/communication/hpx_communicator.cpp:31-43 | For one Runge-Kutta stepper, over all steps, stages and types, two messages share a generation if and only if step, stage and type are equal. |
| `HpxChannels.ReceiveMatchesSend` | source/communication/hpx_communicator.cpp:31-53 | A channel has the generation asked for if and only if that stage and type was sent, and holds that message. |
| `HpxChannels.SendFindsRoom` | source/communication/hpx_communicator.cpp:31-37 | A send never finds its generation taken. |
| `SlopeLimiter.InverseIffUnitNormal` | source/problem/SWE/problem_jacobian/swe_jacobian.hpp:438-514 | R * invR is the identity if and only if the normal has length one. |
| `SlopeLimiter.BackFromCharacteristics` | source/problem/SWE/problem_jacobian/swe_jacobian.hpp:438-514 | What R makes of invR's result for a normal of any length. |
| `SlopeLimiter.MinmodLimits` | source/problem/SWE/problem_slope_limiter/swe_CS_slope_limiter.hpp:97-145 | The minmod step never enlarges a difference or flips its sign and bounds large ones by nu times the neighbours' slope. |
| `SlopeLimiter.RescaledBalances` | source/problem/SWE/problem_slope_limiter/swe_CS_slope_limiter.hpp:147-178 | Rescaled differences sum to zero and none is enlarged or flipped, also when all have one sign. |
| `SlopeLimiter.ProjectionsInverse` | source/basis/bases_2D/basis_dubiner_2D.cpp:213-237 | The projections between the three lowest basis functions and vertex values are inverse to each other. |
| `SlopeLimiter.DifferencesRebuild` | source/problem/SWE/problem_slope_limiter/swe_CS_slope_limiter.hpp:108-198 | Unlimited midpoint differences sum to zero and rebuild the vertex values they came from. |
| `SlopeLimiter.VertexRowKeepsMean` | source/problem/SWE/problem_slope_limiter/swe_CS_slope_limiter.hpp:108-198 | Every rebuilt row has the cell mean of the row it came from, on every branch. |
| `SlopeLimiter.CharacteristicBringsBack` | source/problem/SWE/problem_jacobian/swe_jacobian.hpp:438-514 | Along a median of unit length the two transformations at the barycentre state bring every difference back. |
| `SlopeLimiter.UnlimitedRowUnchanged` | source/problem/SWE/problem_slope_limiter/swe_CS_slope_limiter.hpp:108-198 | If the medians have unit length and minmod passes all differences through, the rebuilt vertex values are the input ones and nothing is written back. |
| `SlopeLimiterKernel.LimiterElement.PrepareElement` | source/problem/SWE/problem_slope_limiter/swe_CS_slope_limiter.hpp:10-22 | Linear part, barycentre and midpoint values of a wet element are those of its lowest degrees of freedom. |
| `SlopeLimiterKernel.LimiterElement.RescaleRow` | source/problem/SWE/problem_slope_limiter/swe_CS_slope_limiter.hpp:147-178 | The loops scale one variable's differences by the balancing factors and touch no other variable. |
| `SlopeLimiterKernel.LimiterElement.Limit` | source/problem/SWE/problem_slope_limiter/swe_CS_slope_limiter.hpp:97-200 | The whole kernel: inactive elements keep their state, the cell mean of every prepared variable is kept, an element with unit medians on which minmod limits nothing is left as it was, and changed rows lose their higher degrees of freedom. |
| `Jacobi.Evaluate` | source/basis/polynomials/basis_polynomials.cpp:4-43 | The rolling three-row buffer computes the value of the three-term recursion at every point. |
| `Jacobi.JacobiPolynomial` | source/basis/polynomials/basis_polynomials.cpp:4-43 | The returned row is the recursively defined Jacobi polynomial at every point, for all n and a >= b. |
| `Jacobi.JacobiPolynomialDerivative` | source/basis/polynomials/basis_polynomials.cpp:45-67 | The scaled lower polynomial of raised parameters at every point, zero for n = 0. |
| `JacobiExpansion.CoefficientsRecur` | source/basis/polynomials/basis_polynomials.cpp:4-43 | The products of binomials C(n + a, n - k) C(n + a + b + k, k) satisfy the program's three-term recurrence power by power. |
| `JacobiExpansion.Expansion` | source/basis/polynomials/basis_polynomials.cpp:4-43 | The recurrence gives the polynomial with these coefficients in powers of (x - 1) / 2, for all n, x and a >= b. |
| `JacobiDerivative.DerivativeTermByTerm` | source/basis/polynomials/basis_polynomials.cpp:45-67 | The scaled lower polynomial of raised parameters is the term-by-term derivative of that polynomial. |
| `JacobiDerivative.DerivativeIsLimit` | source/basis/polynomials/basis_polynomials.cpp:45-67 | It is the limit of the difference quotients: over a step h the polynomial changes by h times it, up to a constant times h squared, at every x and for all n and a >= b. |
| `Jacobi.ValueAtOne` | source/basis/polynomials/basis_polynomials.cpp:4-43 | At x = 1 the recurrence gives the binomial C(n + a, n), for all n and a >= b. |
| `Dubiner.DegreesBijective` | source/basis/bases_2D/basis_dubiner_2D.cpp:18-25 | Function numbers and degree pairs correspond one to one, and the first (n+1)(n+2)/2 are exactly those of total degree at most n. |
| `Dubiner.ComputePhi` | source/basis/bases_2D/basis_dubiner_2D.cpp:85-111 | Every entry is the general formula, or the special value at the collapsed vertex. |
| `Dubiner.TriIndexIsRoundedRoot` | source/basis/bases_2D/basis_dubiner_2D.cpp:19-19 | The total degree of a function is the least t with (2t + 3)^2 >= 1 + 8 (dof + 1), the rounded-up root of the program. |
| `Dubiner.ComputeDPhiDZ1` | source/basis/bases_2D/basis_dubiner_2D.cpp:113-139 | Every entry is the general derivative formula, or the special recursion at the collapsed vertex. |
| `Dubiner.ComputeDPhiDZ2` | source/basis/bases_2D/basis_dubiner_2D.cpp:141-175 | Every entry is the general derivative formula, or the special recursion at the collapsed vertex. |
| `Dubiner.PhiExtends` | source/basis/bases_2D/basis_dubiner_2D.cpp:95-107 | The special value at the collapsed vertex is the general formula there, whatever the undefined coordinate is. |
| `Dubiner.SingularDPhi1IsBinomial` | source/basis/bases_2D/basis_dubiner_2D.cpp:177-193 | The first vertex recursion walks down Pascal's triangle. |
| `Dubiner.SingularDPhi2IsBinomial` | source/basis/bases_2D/basis_dubiner_2D.cpp:195-211 | So does the second, at half the numbers. |
| `Dubiner.DerivativesArePolynomials` | source/basis/bases_2D/basis_dubiner_2D.cpp:113-175 | Away from the vertex the programmed derivative formulas are polynomials without a division. |
| `Dubiner.DerivativesExtend` | source/basis/bases_2D/basis_dubiner_2D.cpp:127-211 | Both special derivative values are the values of those polynomials at the vertex, for all p and q and any undefined coordinate. |
| `QuadMesh.SimplePattern` | mesh_generators/quad_mesh_generator.cpp:464-479 | Every cell gets its two triangles with their own slot numbers as ids. |
| `QuadMesh.ZigzagPattern` | mesh_generators/quad_mesh_generator.cpp:481-510 | Two passes over every second row fill every cell. |
| `QuadMesh.CheckerPattern` | mesh_generators/quad_mesh_generator.cpp:512-541 | Two passes over every second cell fill every cell. |
| `QuadMesh.EverySlotFilled` | mesh_generators/quad_mesh_generator.cpp:131-141 | Every slot of the table holds a triangle of some cell with the slot's number as id. |
| `QuadMesh.CounterClockwise` | mesh_generators/quad_mesh_generator.cpp:464-541 | Every triangle of every pattern runs counter-clockwise and covers half a cell. |
| `QuadMesh.RunsOnce` | mesh_generators/quad_mesh_generator.cpp:464-541 | No two triangles run along an edge in the same direction. |
| `QuadMesh.RunsBack` | mesh_generators/quad_mesh_generator.cpp:464-541 | An edge off the rim is run along the other way by another triangle. |
| `QuadMesh.MakeBoundaries` | mesh_generators/quad_mesh_generator.cpp:143-160 | The four loops fill the boundary lists node by node. |
| `QuadMesh.BoundaryListsExact` | mesh_generators/quad_mesh_generator.cpp:143-160 | The consecutive pairs of the four lists are exactly the edges that only one triangle has, for all m, n >= 1. |
| `Adcirc.HasEdgeIff` | source/preprocessor/ADCIRC_reader/adcirc_format.cpp:310-334 | Cutting the list behind each hit loses nothing: true if and only if the two nodes are adjacent somewhere in either order, also with repeated nodes. |
| `Adcirc.OppositeReturns` | source/preprocessor/ADCIRC_reader/adcirc_format.cpp:258-308 | On one levee, going across and back returns to the edge. |
| `Adcirc.AcrossTwice` | source/preprocessor/ADCIRC_reader/adcirc_format.cpp:258-308 | When no node is listed twice, the node pair across a levee is an involution over all levees. |
| `Adcirc.GetIbtype` | source/preprocessor/ADCIRC_reader/adcirc_format.cpp:214-256 | Open boundaries come first, then the first segment that lists the edge, then generic boundaries; otherwise there is no type. |
| `Adcirc.LeveeHasOtherSide` | source/preprocessor/ADCIRC_reader/adcirc_format.cpp:214-308 | Every edge that a levee lists has an edge across it, so the look-up that follows never fails. |
| `CsrMatrix.CSRMat.constructor` | partitioner/csrmat.hpp:17-60 | Nodes are sorted, and every row holds exactly the neighbours along the keys, from both ends, sorted. |
| `CsrMatrix.CSRMat.Xadj` | partitioner/csrmat.hpp:67-78 | Row starts are the lengths of the listing up to each node, ending at the length of the whole. |
| `CsrMatrix.CSRMat.Adj` | partitioner/csrmat.hpp:80-96 | Every column index is in range and names the far end of its edge. |
| `CsrMatrix.ListingExact` | partitioner/csrmat.hpp:67-129 | Every edge and its mirror image is listed exactly once, and nothing else. |
| `CsrMatrix.ListingSymmetric` | partitioner/csrmat.hpp:80-129 | Every entry has its mirror entry with the same weight. |
| `CsrMatrix.RowsDelimited` | partitioner/csrmat.hpp:67-96 | The row starts cut the listing into one strictly increasing row a node. |
| `CsrMatrix.WeightsTotalTwice` | partitioner/csrmat.hpp:111-129 | The weights handed out total exactly twice the weights given, edges from a node to itself included. |

## Left out

- MPI, HPX, PETSc, METIS and the linear-algebra libraries: MPI is ordered channels with persistent requests, `MPI_Startall` is one step, a partition is any assignment of elements to submeshes, gather and scatter are parameters of the two phases of a rank.
- Files: text formats are sequences of records; levee, tide and flow data are predicates of the input, one look-up a face where the program looks for each node.
- Floating point and 32-bit overflow: exact numbers; `0xFFFFFFFF` is no element's id. The limiter compares squared norms instead of norms.
- One method over all ranks: the numbering phases are methods of a rank; the machine-wide statements are about the values its units hold.
- RankNumbering.NumberRank: requires at least one sim unit on the rank, as the program's rotation does; a rank without units returns before.
- EdgeDictionary.Construct: the boundary type and the node pair across a levee are tables of the mesh file; how the file yields them is `Adcirc`.
- MeshTables.TablesAreSimple: for meshes in which two triangles are joined at most once, across an edge or a levee.
- HaloProtocol.TagIsNonNegativeIff: MPI also bounds tags above, by a number of the implementation.
- Strang.TimestampRepeatsIff: the Strang stepper drives the Green-Naghdi solver, whose messages are not matched by time stamps.
- FaceFates.EveryFaceHasOneFate: rests on symmetric neighbours with one shared face a pair, as the pairing by element ids does.
- RawBoundaries.PairFaces: creation of the geometric objects behind an interface is not modelled; levee data is one look-up a face.
- SspRk.ESSPRKStepper.Load: takes the tables as a parameter where the program recomputes them from order and number of stages.
- Stage time offsets (`crk`, `drk`) and the ramp: no property is stated.
- SlopeLimiterKernel.LimiterElement.RescaleRow: the two loops over one variable are one loop.
- SlopeLimiter.InverseIffUnitNormal: the wave speed is a non-zero parameter instead of the square root of gravity times depth.
- Dubiner.TriIndexIsRoundedRoot: the ceiling of the square root is stated with the root squared away.
- Adcirc.GetIbtype: island boundaries have no case in the program and give no type.
- Adcirc.AcrossTwice: needs node lists without repetition, as the property itself does.
- CsrMatrix.CSRMat.constructor: node weights and their constraint-length check.
- QuadMesh.MakeBoundaries: node coordinates, bathymetry and the written file.
- Quadrature tables, writers, logging, the HPX load balancer, levee kernels and the edge skeleton beyond ownership: constants, input/output and straight-line kernels are not modelled.
