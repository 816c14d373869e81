/** Parameters of the row commitment and their validation (ligero.rs). */
module LigeroParameters {
  import opened Wrappers
  import opened Modulus
  import opened CircleCode
  import ReedSolomon
  import Merkle

  datatype LigeroCode = Rs | Circle

  datatype LigeroError =
    | EmptyWitness | EmptyGamma | InvalidRowLength | InvalidDegreeBound | CodewordTooShort | TooManyOpenings
    | ProximityRadiusTooLarge | WrongOpeningCount | WrongGammaLength | WrongClaimLength | WrongPointLength
    | ColumnOutOfRange
    | MerkleFailure(merkle: Merkle.MerkleError) | RsFailure(rs: ReedSolomon.RsError) | CircleFailure(circle: CircleRsError)
    | Panic // an index past the end of a vector: the source stops instead of returning

  /** Subtraction of machine words. */
  function WrappingSub(a: int, b: int): int { if a >= b then a - b else a - b + U64_MAX + 1 }

  datatype LigeroParams = LigeroParams(
    rowLen: nat, degreeBound: nat, codewordLen: nat, openings: nat, proximityRadius: nat, code: LigeroCode)
  {
    predicate Matches(geom: CircleGeom)
    {
      rowLen == geom.dataSlots && degreeBound == geom.rowMessageLen && codewordLen == geom.codewordLen
    }

    function Geom(): (g: Option<CircleGeom>)
    {
      if code != Circle then None
      else if Matches(GEOM_L64) then Some(GEOM_L64)
      else if Matches(GEOM_L128) then Some(GEOM_L128)
      else if Matches(GEOM_L256) then Some(GEOM_L256)
      else None
    }

    /** The number of coefficients of a claim batch: the product of a weight and a row fits. */
    function ClaimDegreeBound(): int
    {
      if code == Rs then degreeBound + rowLen - 1 else degreeBound + rowLen + 2
    }

    function Validate(): (r: Result<(), LigeroError>)
    {
      if rowLen == 0 then Err(InvalidRowLength)
      else if code == Circle && Geom().None? then Err(InvalidRowLength)
      else if degreeBound < rowLen then Err(InvalidDegreeBound)
      else if degreeBound < rowLen + openings then Err(InvalidDegreeBound)
      else if codewordLen <= degreeBound then Err(CodewordTooShort)
      else if openings > codewordLen then Err(TooManyOpenings)
      else if 2 * proximityRadius >= WrappingSub(codewordLen, ClaimDegreeBound()) then Err(ProximityRadiusTooLarge)
      else if codewordLen <= 2 * degreeBound + proximityRadius then Err(CodewordTooShort)
      else Ok(())
    }
  }

  /** What validation guarantees to everything after it: rows leave room for one pad per opening, batches are
      codeword messages, and a circle geometry is a sound one. */
  lemma ValidParams(p: LigeroParams)
    requires p.Validate().Ok?
    ensures 1 <= p.rowLen && p.rowLen + p.openings <= p.degreeBound
    ensures 2 * p.degreeBound + p.proximityRadius < p.codewordLen
    ensures 2 * p.proximityRadius < p.codewordLen - p.ClaimDegreeBound()
    ensures p.degreeBound <= p.ClaimDegreeBound() <= p.codewordLen
    ensures p.code == Circle ==>
              && p.Geom().Some? && p.Geom().value.Valid() && p.Matches(p.Geom().value)
              && p.ClaimDegreeBound() <= p.Geom().value.productDomainLen
  {
    GeometriesValid();
    if p.code == Rs {
      assert p.rowLen <= p.degreeBound;
    }
  }

  /** Validation accepts exactly these parameters. */
  lemma ValidIff(p: LigeroParams)
    requires p.codewordLen <= U64_MAX && p.rowLen <= U64_MAX && p.degreeBound <= U64_MAX
    ensures p.Validate().Ok? <==>
              && 1 <= p.rowLen && p.rowLen + p.openings <= p.degreeBound
              && 2 * p.degreeBound + p.proximityRadius < p.codewordLen
              && 2 * p.proximityRadius + p.ClaimDegreeBound() < p.codewordLen
              && (p.code == Circle ==>
                    || (p.rowLen == 64 && p.degreeBound == 256 && p.codewordLen == 2048)
                    || (p.rowLen == 128 && p.degreeBound == 512 && p.codewordLen == 4096)
                    || (p.rowLen == 256 && p.degreeBound == 512 && p.codewordLen == 4096))
  {
  }

  const V1_PARAMS := LigeroParams(64, 64, 512, 160, 223, Rs)
  const V2_PARAMS := LigeroParams(64, 234, 2048, 170, 875, Rs)
  const V2_PARAMS_B := LigeroParams(64, 289, 1024, 225, 335, Rs)
  const V2_CIRCLE_PARAMS := LigeroParams(64, 256, 2048, 170, 862, Circle)
  const V3_CIRCLE_PARAMS := LigeroParams(128, 512, 4096, 168, 1726, Circle)
  const V4_CIRCLE_PARAMS := LigeroParams(256, 512, 4096, 176, 1662, Circle)

  /** The shipped parameter sets; the first one, kept for its sizes, leaves no room for pads. */
  lemma ShippedParams()
    ensures V1_PARAMS.Validate() == Err(InvalidDegreeBound)
    ensures V2_PARAMS.Validate().Ok? && V2_PARAMS_B.Validate().Ok?
    ensures V2_CIRCLE_PARAMS.Validate().Ok? && V3_CIRCLE_PARAMS.Validate().Ok? && V4_CIRCLE_PARAMS.Validate().Ok?
  {
  }
}
