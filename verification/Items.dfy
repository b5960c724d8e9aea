/** Flows with their sizes, and the reserved values of 32-bit ids and sizes. */
module Items {

  const DUMMY_FLOW: nat := 0xffff_ffff
  const MAX_SIZE: nat := 0xffff_ffff

  /** A flow and its size. */
  datatype Item = Item(flowID: nat, size: nat)

  ghost predicate Descending(s: seq<Item>) {
    forall i, j :: 0 <= i < j < |s| ==> s[i].size >= s[j].size
  }
}
