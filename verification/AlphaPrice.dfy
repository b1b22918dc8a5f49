/** `getSumAlphaPrice` of `precompiles/src/alpha.rs`: a saturating fixed-point sum over the subnets. */
module AlphaPrice {
  import opened Wrappers
  import opened MachineIntegers
  import opened BalanceConverter

  const U128_MAX: nat := 0xFFFF_FFFF_FFFF_FFFF_FFFF_FFFF_FFFF_FFFF

  /** The bits of a `U96F32`: the number times 2^32. */
  type U96F32 = n: nat | n <= U128_MAX

  const ONE: nat := 0x1_0000_0000
  const ROOT: u16 := 0

  function FixedAdd(a: U96F32, b: U96F32): U96F32 {
    if a + b <= U128_MAX then a + b else U128_MAX
  }

  function FixedMul(a: U96F32, b: U96F32): U96F32 {
    if (a * b) / ONE <= U128_MAX then (a * b) / ONE else U128_MAX
  }

  function FixedToU64(a: U96F32): u64 {
    if a / ONE <= U64_MAX then a / ONE else U64_MAX
  }

  datatype PriceError = InvalidRange

  // ----- the exact sum -------------------------------------------------------------------------

  /** What a subnet adds to the sum: its price if below one, and nothing for the root network. */
  function Share(price: u16 -> U96F32, netuid: u16): nat {
    if netuid != 0 && price(netuid) < 0x1_0000_0000 then price(netuid) else 0
  }

  /** The sum of the shares of the subnets below `bound`. */
  function SumBelow(price: u16 -> U96F32, netuids: set<u16>, bound: nat): nat
    requires bound <= U16_MAX + 1
  {
    if bound == 0 then 0
    else SumBelow(price, netuids, bound - 1) + (if bound - 1 in netuids then Share(price, bound - 1) else 0)
  }

  function ExactSum(price: u16 -> U96F32, netuids: set<u16>): nat {
    SumBelow(price, netuids, U16_MAX + 1)
  }

  lemma {:induction false} SumBelowAdd(price: u16 -> U96F32, netuids: set<u16>, x: u16, bound: nat)
    requires bound <= U16_MAX + 1 && x !in netuids
    ensures SumBelow(price, netuids + {x}, bound) == SumBelow(price, netuids, bound) + (if x < bound then Share(price, x) else 0)
  {
    if bound > 0 {
      SumBelowAdd(price, netuids, x, bound - 1);
    }
  }

  lemma {:induction false} SumBelowBound(price: u16 -> U96F32, netuids: set<u16>, bound: nat)
    requires bound <= U16_MAX + 1
    ensures SumBelow(price, netuids, bound) <= bound * ONE
  {
    if bound > 0 {
      SumBelowBound(price, netuids, bound - 1);
    }
  }

  lemma {:induction false} SumBelowEmpty(price: u16 -> U96F32, bound: nat)
    requires bound <= U16_MAX + 1
    ensures SumBelow(price, {}, bound) == 0
  {
    if bound > 0 {
      SumBelowEmpty(price, bound - 1);
    }
  }

  lemma Scale(sum: nat)
    requires sum <= (U16_MAX + 1) * ONE
    ensures FixedMul(sum, DECIMALS * ONE) == sum * DECIMALS
    ensures FixedToU64(sum * DECIMALS) == sum * DECIMALS / ONE
  {
    assert sum * (DECIMALS * ONE) == (sum * DECIMALS) * ONE;
  }

  // ----- the precompile ------------------------------------------------------------------------

  function Netuids(networks: seq<(u16, bool)>): set<u16> {
    set i | 0 <= i < |networks| :: networks[i].0
  }

  /** `networks` is the iteration of a storage map, so no netuid occurs in it twice. Nothing saturates for
      any prices: the answer is exactly 10^9 times the whole part of 10^9 times the sum, which depends on
      the networks present and not on the order of the iteration. */
  method GetSumAlphaPrice(networks: seq<(u16, bool)>, price: u16 -> U96F32) returns (r: Result<u256, PriceError>)
    requires forall i, j :: 0 <= i < j < |networks| ==> networks[i].0 != networks[j].0
    ensures r == Ok(ExactSum(price, Netuids(networks)) * 1_000_000_000 / 0x1_0000_0000 * 1_000_000_000)
  {
    var sum: U96F32 := 0;
    SumBelowEmpty(price, U16_MAX + 1);
    assert Netuids(networks[..0]) == {};
    for k := 0 to |networks|
      invariant sum == ExactSum(price, Netuids(networks[..k]))
    {
      var netuid := networks[k].0;
      var seen := Netuids(networks[..k]);
      assert Netuids(networks[..k + 1]) == seen + {netuid};
      SumBelowAdd(price, seen, netuid, U16_MAX + 1);
      SumBelowBound(price, seen + {netuid}, U16_MAX + 1);
      if netuid != ROOT {
        if price(netuid) < ONE {
          sum := FixedAdd(sum, price(netuid));
        }
      }
    }
    assert networks[..|networks|] == networks;
    SumBelowBound(price, Netuids(networks), U16_MAX + 1);
    Scale(sum);
    var scaled := FixedMul(sum, DECIMALS * ONE);
    var evm := IntoEvmBalance(FixedToU64(scaled));
    if evm.None? {
      return Err(InvalidRange);
    }
    return Ok(evm.value);
  }
}
