/** The first table sizes that bigmap steps through, primes close to powers of two. */
module BigMapSizes {
  import opened Primes
  import opened BigMap

  const FIRST_TABLE_SIZES: seq<nat> := [197, 457, 967, 1987, 4019]

  lemma Prime197()
    ensures IsPrime(197)
  {}

  lemma Prime457()
    ensures IsPrime(457)
  {}

  lemma Prime967()
    ensures IsPrime(967)
  {}

  lemma Prime1987()
    ensures IsPrime(1987)
  {}

  lemma Prime4019()
    ensures IsPrime(4019)
  {}

  /** So the map's preconditions on its sizes can be met. */
  lemma FirstSizesArePrime()
    ensures PrimeTable(FIRST_TABLE_SIZES)
  {
    Prime197();
    Prime457();
    Prime967();
    Prime1987();
    Prime4019();
  }
}
