/** Sixteen-bit wrapping sequence numbers, compared by forward distance
    (the comparison of section 3.2 of RFC 1982 with SERIAL_BITS = 16). */
module SerialNumbers {

  const MODULUS := 0x1_0000
  const HALF := 0x8000

  type Seq = n: int | 0 <= n < MODULUS

  /** `(a + k) & 0xFFFF` */
  function Add(a: Seq, k: nat): Seq
    requires k <= MODULUS
  {
    if a + k < MODULUS then a + k else a + k - MODULUS
  }

  /** `(to - from) & 0xFFFF`: how far `to` lies ahead of `from`. */
  function Distance(from: Seq, to: Seq): Seq
  {
    if from <= to then to - from else to - from + MODULUS
  }

  /** The case splits above are the source's masks, and each undoes the other. */
  lemma MaskedArithmetic(a: Seq, b: Seq, k: nat)
    requires k <= MODULUS
    ensures Add(a, k) == (a + k) % MODULUS && Distance(a, b) == (b - a) % MODULUS
    ensures Add(a, Distance(a, b)) == b && (k < MODULUS ==> Distance(a, Add(a, k)) == k)
  {
  }

  /** The forward half of the number circle; distance 0x8000 counts as behind. */
  predicate Ahead(from: Seq, to: Seq) {
    1 <= Distance(from, to) < HALF
  }

  /** The `n` numbers from `from` on, in order. */
  function Span(from: Seq, n: nat): (r: seq<Seq>)
    requires n <= MODULUS
    ensures |r| == n
    ensures forall k :: 0 <= k < n ==> r[k] == Add(from, k)
  {
    seq(n, k requires 0 <= k < n => Add(from, k))
  }
}
