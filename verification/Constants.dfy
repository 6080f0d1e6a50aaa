/** The constants of inc/bc.h on which the tree depends.

    The number of keys in a block follows from the block size, which a user may
    change before compilation, so it stays symbolic: the only thing known about
    it is what the consistency check of inc/bc.h enforces. */
module Constants {

  /** The null block pointer, also used for "no position". */
  const ZNULL: int := -1

  /** Join threshold: a join leaves at least this many key slots free. */
  const ZTHRES: int := 3

  /** ZMXKEY - ZTHRES must be positive, or the library does not compile. */
  type MaxKeys = n: int | n - 3 > 0 witness 22

  /** Keys per block (22 in the default build, 145 with large files). */
  const ZMXKEY: MaxKeys

  /** Block types (information word ZBTYPE). */
  const ZROOT: int := 1
  const ZINUSE: int := 2
  const ZFREE: int := 3
  const ZDATA: int := 4
  const ZDUP: int := 5

  /** Block number of the super root. */
  const ZSUPER: int := 0

  /** Block number of the first root of a file. */
  const DEFAULT_ROOT: int := 1

  /** Error codes. */
  const QDELEX: int := 21
  const QDELER: int := 22
  const QDUP: int := 46
  const QNOKEY: int := 47
  const QNOWRT: int := 48

  /** Values of n bytes. */
  function Power(n: nat): (p: nat)
    ensures p > 0
  {
    if n == 0 then 1 else 256 * Power(n - 1)
  }
}
