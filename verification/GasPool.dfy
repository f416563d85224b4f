/** The gas that a block still offers to its transactions: core/gaspool.go. */
module GasPools {
  import opened Words

  class GasPool {
    var gas: u64
    var blobGas: u64

    constructor ()
      ensures gas == 0 && blobGas == 0
    {
      gas, blobGas := 0, 0;
    }

    // The source panics when the pool would exceed 64 bits; the pool is then left alone.
    method AddGas(amount: u64) returns (panicked: bool)
      modifies this`gas
      ensures panicked <==> old(gas) + amount >= TWO_64
      ensures gas == if panicked then old(gas) else old(gas) + amount
    {
      if gas > TWO_64 - 1 - amount {
        return true;
      }
      gas := gas + amount;
      panicked := false;
    }

    method SubGas(amount: u64) returns (ok: bool)
      modifies this`gas
      ensures ok <==> old(gas) >= amount
      ensures gas == if ok then old(gas) - amount else old(gas)
    {
      if gas < amount {
        return false;
      }
      gas := gas - amount;
      ok := true;
    }

    method AddBlobGas(amount: u64) returns (panicked: bool)
      modifies this`blobGas
      ensures panicked <==> old(blobGas) + amount >= TWO_64
      ensures blobGas == if panicked then old(blobGas) else old(blobGas) + amount
    {
      if blobGas > TWO_64 - 1 - amount {
        return true;
      }
      blobGas := blobGas + amount;
      panicked := false;
    }

    method SubBlobGas(amount: u64) returns (ok: bool)
      modifies this`blobGas
      ensures ok <==> old(blobGas) >= amount
      ensures blobGas == if ok then old(blobGas) - amount else old(blobGas)
    {
      if blobGas < amount {
        return false;
      }
      blobGas := blobGas - amount;
      ok := true;
    }
  }
}
