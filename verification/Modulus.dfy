/** What the project asks of the field modulus, and that there is such a modulus. */
module Modulus {
  import opened Primes

  const U64_MAX: int := 0xffff_ffff_ffff_ffff

  ghost predicate IsFieldModulus(p: int) { IsPrime(p) && p % 4 == 3 && p > U64_MAX }

  type FieldModulus = p: int | IsFieldModulus(p) witness SomeModulus()

  /** The P-256 modulus of NIST SP 800-186, section 3.2.1.3. */
  const P256: int := 0xffffffff_00000001_00000000_00000000_00000000_ffffffff_ffffffff_ffffffff

  /** A prime P-256 modulus is one of the moduli of this project. */
  lemma P256Qualifies()
    requires IsPrime(P256)
    ensures IsFieldModulus(P256)
  {
  }

  function SomeModulus(): (p: int)
    ensures IsFieldModulus(p)
  {
    PrimeBeyond(U64_MAX)
  }
}
