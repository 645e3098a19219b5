/** Faces as seen from one element, and the objects a sim unit builds from them. */
module Sides {
  /** Face `face` of element `elt`. */
  datatype Side = Side(elt: nat, face: nat)

  /** The id of no element. */
  const DEFAULT_ID: nat := 0xFFFF_FFFF

  /** An interface sees its face from both sides. */
  datatype Interface = Interface(inner: Side, outer: Side)

  /** A cut face in one unit: its side, the unit beyond, and its slot in that neighbour's buffers. */
  datatype DBound = DBound(side: Side, peer: nat, offset: nat)

  /** The objects a sim unit built from its submesh. */
  datatype Part = Part(elements: seq<nat>, interfaces: seq<Interface>, boundaries: seq<Side>, dbounds: seq<DBound>)

  /** Both sides of the first k interfaces, in order. */
  function InterfaceSides(interfaces: seq<Interface>, k: nat): (sides: seq<Side>)
    requires k <= |interfaces|
    ensures |sides| == 2 * k
  {
    if k == 0 then [] else InterfaceSides(interfaces, k - 1) + [interfaces[k - 1].inner, interfaces[k - 1].outer]
  }

  /** Every side a part's objects refer to, in the order its loops visit them. */
  function SidesOf(p: Part): (sides: seq<Side>)
    ensures |sides| == 2 * |p.interfaces| + |p.boundaries| + |p.dbounds|
  {
    InterfaceSides(p.interfaces, |p.interfaces|) + p.boundaries
    + seq(|p.dbounds|, i requires 0 <= i < |p.dbounds| => p.dbounds[i].side)
  }
}
