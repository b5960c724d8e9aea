/** The choice between the two sorters that callers make by the length to be sorted. */
module RangeSorting {
  import opened BinaryArith
  import opened SortingNetworks
  import opened BitonicSorting
  import opened OddEvenSorting

  /** Powers of two are sorted by the odd-even network, other lengths by the bitonic one. */
  method SortRange<T(!new)>(a: array<T>, off: nat, n: nat, greater: (T, T) -> bool)
    requires off + n <= a.Length && n <= MAX_SORTABLE && StrictWeakOrder(greater)
    modifies a
    ensures SortedFrom(old(a[..]), a[..], off, n, greater, true)
  {
    TestPo2Exact(n);
    if TestPo2(n) {
      var oe := new OddEvenMergeSorter<T>(greater);
      oe.Sort(a, off, n);
    } else {
      var bs := new BitonicSorter<T>(greater);
      bs.Sort(a, off, n);
    }
  }
}
