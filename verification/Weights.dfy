/** Two-dimensional dispatch weights with the saturating 64-bit arithmetic of `sp_weights`. */
module Weights {
  import opened MachineIntegers

  datatype Weight = Weight(refTime: u64, proofSize: u64) {
    function Add(other: Weight): Weight {
      Weight(SatAdd64(refTime, other.refTime), SatAdd64(proofSize, other.proofSize))
    }

    function Min(other: Weight): Weight {
      Weight(Min64(refTime, other.refTime), Min64(proofSize, other.proofSize))
    }

    predicate AnyGt(other: Weight) {
      refTime > other.refTime || proofSize > other.proofSize
    }

    predicate Leq(other: Weight) {
      refTime <= other.refTime && proofSize <= other.proofSize
    }
  }

  /** `RuntimeDbWeight`. */
  datatype DbWeight = DbWeight(read: u64, write: u64) {
    function Reads(n: nat): Weight {
      Weight(SatMul64(read, n), 0)
    }

    function Writes(n: nat): Weight {
      Weight(SatMul64(write, n), 0)
    }

    function ReadsWrites(r: nat, w: nat): Weight {
      Reads(r).Add(Writes(w))
    }
  }
}
