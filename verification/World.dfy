/** Accounts as the state transition sees them, and the sum of all balances.

    Stands for the parts of core/state that core/state_transition.go calls.
 */
module World {
  import opened Words

  datatype Address = Address(id: nat)

  const ZERO_ADDRESS := Address(0)

  // What an account's code is to the checks of EIP-3607 and EIP-7702.
  datatype Code = NoCode | Delegated(target: Address) | Contract

  datatype World = World(
    balance: map<Address, u256>,
    nonce: map<Address, u64>,
    code: map<Address, Code>,
    exist: set<Address>,
    refund: u64)
  {
    function Balance(a: Address): u256 { if a in balance then balance[a] else 0 }

    function Nonce(a: Address): u64 { if a in nonce then nonce[a] else 0 }

    function CodeOf(a: Address): Code { if a in code then code[a] else NoCode }

    // 256-bit arithmetic wraps around.
    function AddBalance(a: Address, amount: u256): World {
      this.(balance := balance[a := Wrap256(Balance(a) + amount)], exist := exist + {a})
    }

    function SubBalance(a: Address, amount: u256): World {
      this.(balance := balance[a := Wrap256(Balance(a) - amount)], exist := exist + {a})
    }

    function SetNonce(a: Address, n: u64): World { this.(nonce := nonce[a := n], exist := exist + {a}) }

    function SetCode(a: Address, c: Code): World { this.(code := code[a := c], exist := exist + {a}) }

    // The refund counter is a 64-bit integer without an overflow check.
    function AddRefund(gas: u64): World { this.(refund := Wrap64(refund + gas)) }

    ghost function Total(): nat { Sum(balance) }
  }

  // The journaled state that a transition works on.
  class StateDb {
    var w: World

    constructor (w: World)
      ensures this.w == w
    {
      this.w := w;
    }
  }

  // ----- Sums over accounts -----

  ghost function Sum(m: map<Address, u256>): nat { SumOver(m, m.Keys) }

  ghost function SumOver(m: map<Address, u256>, keys: set<Address>): nat
    requires keys <= m.Keys
  {
    if keys == {} then 0 else
      var a :| a in keys;
      m[a] + SumOver(m, keys - {a})
  }

  lemma {:induction false} SumPick(m: map<Address, u256>, keys: set<Address>, a: Address)
    requires a in keys && keys <= m.Keys
    ensures SumOver(m, keys) == m[a] + SumOver(m, keys - {a})
    decreases keys
  {
    var b :| b in keys && SumOver(m, keys) == m[b] + SumOver(m, keys - {b});
    if b != a {
      SumPick(m, keys - {b}, a);
      SumPick(m, keys - {a}, b);
      assert keys - {b} - {a} == keys - {a} - {b};
    }
  }

  lemma {:induction false} SumAgrees(m: map<Address, u256>, m': map<Address, u256>, keys: set<Address>)
    requires keys <= m.Keys && keys <= m'.Keys && forall a <- keys :: m[a] == m'[a]
    ensures SumOver(m, keys) == SumOver(m', keys)
    decreases keys
  {
    if keys != {} {
      var a :| a in keys;
      SumPick(m, keys, a);
      SumPick(m', keys, a);
      SumAgrees(m, m', keys - {a});
    }
  }

  lemma SumUpdate(m: map<Address, u256>, a: Address, v: u256)
    ensures Sum(m[a := v]) == Sum(m) - (if a in m then m[a] else 0) + v
  {
    var m' := m[a := v];
    SumPick(m', m'.Keys, a);
    assert m'.Keys - {a} == m.Keys - {a};
    SumAgrees(m, m', m.Keys - {a});
    if a in m {
      SumPick(m, m.Keys, a);
    } else {
      assert m.Keys - {a} == m.Keys;
    }
  }

  lemma SumBounds(m: map<Address, u256>, a: Address)
    ensures (if a in m then m[a] else 0) <= Sum(m)
  {
    if a in m {
      SumPick(m, m.Keys, a);
    }
  }

  // A credit that keeps the supply below 2^256 does not wrap and raises the sum by its amount.
  lemma AddTotal(w: World, a: Address, amount: u256)
    requires w.Total() + amount < TWO_256
    ensures w.AddBalance(a, amount).Balance(a) == w.Balance(a) + amount
    ensures w.AddBalance(a, amount).Total() == w.Total() + amount
  {
    hide Wrap256, Sum;
    SumBounds(w.balance, a);
    Wrap256Small(w.Balance(a) + amount);
    SumUpdate(w.balance, a, Wrap256(w.Balance(a) + amount));
  }

  // A debit that the balance covers does not wrap and lowers the sum by its amount.
  lemma SubTotal(w: World, a: Address, amount: u256)
    requires amount <= w.Balance(a)
    ensures w.SubBalance(a, amount).Balance(a) == w.Balance(a) - amount
    ensures w.SubBalance(a, amount).Total() == w.Total() - amount
  {
    hide Wrap256, Sum;
    SumBounds(w.balance, a);
    Wrap256Small(w.Balance(a) - amount);
    SumUpdate(w.balance, a, Wrap256(w.Balance(a) - amount));
  }
}
