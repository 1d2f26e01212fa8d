/** The gas a transaction pays before any code runs, in 64-bit arithmetic. */
module Intrinsic {
  import opened Basics
  import opened Transactions

  const TX_GAS := 21000
  const TX_GAS_CONTRACT_CREATION := 53000
  const TX_DATA_ZERO_GAS := 4
  const TX_DATA_NON_ZERO_GAS_FRONTIER := 68
  const TX_DATA_NON_ZERO_GAS_EIP2028 := 16

  datatype GasResult = Gas(amount: nat) | OutOfGas

  function BaseGas(create: bool, homestead: bool): nat {
    if create && homestead then TX_GAS_CONTRACT_CREATION else TX_GAS
  }

  /** The price of one byte of data. */
  function ByteGas(b: Byte, eip2028: bool): nat {
    if b == 0 then TX_DATA_ZERO_GAS
    else if eip2028 then TX_DATA_NON_ZERO_GAS_EIP2028 else TX_DATA_NON_ZERO_GAS_FRONTIER
  }

  /** The price of the data, byte by byte, without any width. */
  function DataGas(data: seq<Byte>, eip2028: bool): nat {
    if data == [] then 0 else DataGas(data[..|data| - 1], eip2028) + ByteGas(data[|data| - 1], eip2028)
  }

  /** In other words: a base price, a price per zero byte and one per other byte. */
  lemma {:induction false} CostCounts(data: seq<Byte>, create: bool, homestead: bool, eip2028: bool)
    ensures var zeros := multiset(data)[0];
            BaseGas(create, homestead) + DataGas(data, eip2028) ==
            (if create && homestead then 53000 else 21000) + 4 * zeros +
            (if eip2028 then 16 else 68) * (|data| - zeros)
  {
    if data != [] {
      var n := |data| - 1;
      assert data == data[..n] + [data[n]];
      CostCounts(data[..n], create, homestead, eip2028);
    }
  }

  /** Exactly the mathematical cost when that fits 64 bits, and an error exactly when it does not;
      no intermediate value overflows. */
  method IntrinsicGas(data: seq<Byte>, create: bool, homestead: bool, eip2028: bool) returns (r: GasResult)
    ensures var cost := BaseGas(create, homestead) + DataGas(data, eip2028);
            r == if cost <= MAX_UINT64 then Gas(cost) else OutOfGas
  {
    var gas := TX_GAS;
    if create && homestead {
      gas := TX_GAS_CONTRACT_CREATION;
    }
    if |data| > 0 {
      var nonZeroGas := if eip2028 then TX_DATA_NON_ZERO_GAS_EIP2028 else TX_DATA_NON_ZERO_GAS_FRONTIER;
      var nz := 0;
      for i := 0 to |data|
        invariant 0 <= nz <= i
        invariant DataGas(data[..i], eip2028) == nz * nonZeroGas + (i - nz) * TX_DATA_ZERO_GAS
      {
        assert data[..i + 1][..i] == data[..i];
        if data[i] != 0 {
          nz := nz + 1;
        }
      }
      assert data[..|data|] == data;
      if (MAX_UINT64 - gas) / nonZeroGas < nz {
        return OutOfGas;
      }
      gas := gas + nz * nonZeroGas;
      assert gas <= MAX_UINT64;
      var z := |data| - nz;
      if (MAX_UINT64 - gas) / TX_DATA_ZERO_GAS < z {
        return OutOfGas;
      }
      gas := gas + z * TX_DATA_ZERO_GAS;
      assert gas <= MAX_UINT64;
    }
    r := Gas(gas);
  }
}
