/** Boundary types are bytes: below INTERNAL a boundary, then internal, then distributed. */
module EdgeTypes {
  const INTERNAL: nat := 128
  const DISTRIBUTED_OFFSET: nat := 64
  const DISTRIBUTED: nat := INTERNAL + DISTRIBUTED_OFFSET

  predicate IsInternal(t: nat) {
    INTERNAL <= t < DISTRIBUTED
  }

  predicate IsDistributed(t: nat) {
    DISTRIBUTED <= t
  }

  predicate IsBoundary(t: nat) {
    t < INTERNAL
  }

  /** The addition wraps at a byte. */
  function Distributed(t: nat): nat {
    (t + DISTRIBUTED_OFFSET) % 256
  }

  /** Marking an internal type once makes it distributed; marking it again would wrap around to a boundary type. */
  lemma MarkOnceOnly(t: nat)
    requires IsInternal(t)
    ensures IsDistributed(Distributed(t)) && !IsInternal(Distributed(t))
    ensures IsBoundary(Distributed(Distributed(t)))
  {
  }
}
