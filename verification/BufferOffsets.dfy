/** The slots that the faces shared with one neighbour get in its send and receive buffers, one buffer a quantity. */
module BufferOffsets {
  /** What units exchange: the four quantities of the shallow-water solver, then the three of Green-Naghdi. */
  const BARYCTR_COORD: nat := 0
  const INIT_GLOBAL_PROB: nat := 1
  const BOUND_STATE: nat := 2
  const BARYCTR_STATE: nat := 3
  const DC_GLOBAL_DOF_INDX: nat := 4
  const DBATH: nat := 5
  const DERIVATIVES: nat := 6
  const N_COMMUNICATIONS: nat := 7

  /** Values per face with ngp Gauss points. */
  function Width(comm: nat, ngp: nat): nat {
    if comm == BARYCTR_COORD then 2
    else if comm == INIT_GLOBAL_PROB then ngp
    else if comm == BOUND_STATE then 3 * ngp
    else if comm == BARYCTR_STATE then 4
    else if comm == DC_GLOBAL_DOF_INDX then 1
    else 4 * ngp
  }

  /** Where the slot of face k starts: behind those of the faces before it. */
  function OffsetAt(ngps: seq<nat>, k: nat, comm: nat): nat
    requires k <= |ngps|
  {
    if k == 0 then 0 else OffsetAt(ngps, k - 1, comm) + Width(comm, ngps[k - 1])
  }

  function OffsetsAt(ngps: seq<nat>, k: nat): (offsets: seq<nat>)
    requires k <= |ngps|
    ensures |offsets| == N_COMMUNICATIONS
  {
    seq(N_COMMUNICATIONS, comm requires 0 <= comm < N_COMMUNICATIONS => OffsetAt(ngps, k, comm))
  }

  /** Hands out the current ends of all buffers and moves them past the face's slots. */
  method CommBufferOffsets(beginIndex: array<nat>, ngp: nat) returns (offset: seq<nat>)
    requires beginIndex.Length == N_COMMUNICATIONS
    modifies beginIndex
    ensures offset == old(beginIndex[..])
    ensures forall comm | 0 <= comm < N_COMMUNICATIONS :: beginIndex[comm] == old(beginIndex[comm]) + Width(comm, ngp)
  {
    offset := [beginIndex[BARYCTR_COORD], beginIndex[INIT_GLOBAL_PROB], beginIndex[BOUND_STATE],
               beginIndex[BARYCTR_STATE]];
    beginIndex[BARYCTR_COORD] := beginIndex[BARYCTR_COORD] + 2;
    beginIndex[INIT_GLOBAL_PROB] := beginIndex[INIT_GLOBAL_PROB] + ngp;
    beginIndex[BOUND_STATE] := beginIndex[BOUND_STATE] + 3 * ngp;
    beginIndex[BARYCTR_STATE] := beginIndex[BARYCTR_STATE] + 4;
    offset := offset + [beginIndex[DC_GLOBAL_DOF_INDX], beginIndex[DBATH], beginIndex[DERIVATIVES]];
    beginIndex[DC_GLOBAL_DOF_INDX] := beginIndex[DC_GLOBAL_DOF_INDX] + 1;
    beginIndex[DBATH] := beginIndex[DBATH] + 4 * ngp;
    beginIndex[DERIVATIVES] := beginIndex[DERIVATIVES] + 4 * ngp;
  }

  /** Slots of one quantity never overlap and lie inside the buffer as finally sized. */
  lemma {:induction false} SlotsApart(ngps: seq<nat>, i: nat, j: nat, comm: nat)
    requires i < j <= |ngps|
    ensures OffsetAt(ngps, i, comm) + Width(comm, ngps[i]) <= OffsetAt(ngps, j, comm) <= OffsetAt(ngps, |ngps|, comm)
  {
    OffsetsGrow(ngps, i + 1, j, comm);
    OffsetsGrow(ngps, j, |ngps|, comm);
  }

  /** First indices take one entry a face. */
  lemma {:induction false} IndexSlot(ngps: seq<nat>, k: nat)
    requires k <= |ngps|
    ensures OffsetAt(ngps, k, DC_GLOBAL_DOF_INDX) == k
  {
    if k > 0 {
      IndexSlot(ngps, k - 1);
    }
  }

  lemma {:induction false} OffsetsGrow(ngps: seq<nat>, i: nat, j: nat, comm: nat)
    requires i <= j <= |ngps|
    ensures OffsetAt(ngps, i, comm) <= OffsetAt(ngps, j, comm)
    decreases j
  {
    if i < j {
      OffsetsGrow(ngps, i, j - 1, comm);
    }
  }
}
