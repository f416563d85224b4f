/** Applying one message to the state: core/state_transition.go.

    The EVM is a parameter: a function from the state, the gas offered and the bailout flag to an outcome.
    `Sane` says what is assumed of it: it returns no more gas than it was given and creates no balance.
    Intrinsic gas and the init code size check are part of the message, since they depend on its data only.
 */
module Transition {
  import opened Words
  import opened World
  import opened GasPools
  import opened Authorizations

  const REFUND_QUOTIENT := 2
  const REFUND_QUOTIENT_EIP3529 := 5
  const BLOB_GAS_PER_BLOB := 0x20000

  datatype Message = Message(
    from: Address,
    to: Option<Address>,
    gasPrice: u256,
    feeCap: Option<u256>,
    tip: u256,
    gas: u64,
    blobGas: u64,
    maxFeePerBlobGas: u256,
    value: u256,
    nonce: u64,
    checkNonce: bool,
    isFree: bool,
    auths: seq<Authorization>,
    intrinsicGas: Option<u64>,
    initCodeTooLarge: bool)

  datatype Env = Env(
    coinbase: Address,
    baseFee: u256,
    blobBaseFee: Option<u256>,
    isLondon: bool,
    isCancun: bool,
    noBaseFee: bool,
    burntContract: Option<Address>,
    chainID: u256)

  datatype TxError =
    | ErrNonceTooHigh | ErrNonceTooLow | ErrNonceMax | ErrSenderNoEOA | ErrTipAboveFeeCap | ErrFeeCapTooLow
    | ErrInternalFailure | ErrMaxFeePerBlobGas | ErrInsufficientFunds | ErrBlobGasLimitReached
    | ErrGasLimitReached | ErrCreateWithAuths | ErrGasUintOverflow | ErrIntrinsicGas | ErrMaxInitCodeSize

  datatype TxResult = Done(usedGas: u64, failed: bool, feeTipped: u256) | Rejected(error: TxError)

  datatype Outcome = Outcome(world: World, gasLeft: u64, failed: bool)

  type Evm = (World, u64, bool) -> Outcome

  ghost predicate Sane(evm: Evm) {
    forall w, g, b :: evm(w, g, b).gasLeft <= g && evm(w, g, b).world.Total() <= w.Total()
  }

  // ----- Prices -----

  function GasCost(m: Message): nat { m.gas * m.gasPrice }

  function BlobFee(env: Env, m: Message): nat {
    if env.isCancun && env.blobBaseFee.Some? then env.blobBaseFee.value * m.blobGas else 0
  }

  // The balance a sender must have.
  function Required(env: Env, m: Message): nat {
    if m.feeCap.None? then GasCost(m)
    else m.gas * m.feeCap.value + m.value + if env.isCancun then m.maxFeePerBlobGas * m.blobGas else 0
  }

  // What the block producer gets for each unit of gas.
  function EffectiveTip(env: Env, m: Message): u256
    requires env.isLondon ==> m.feeCap.Some?
  {
    if !env.isLondon then m.gasPrice
    else if m.feeCap.value > env.baseFee then Min(m.tip, m.feeCap.value - env.baseFee)
    else 0
  }

  // What the burn contract gets for each unit of gas.
  function BurnPrice(env: Env, m: Message): u256 {
    if !m.isFree && env.isLondon && env.burntContract.Some? then env.baseFee else 0
  }

  // How the price of a message follows from its caps, as AsMessage computes it.
  predicate PriceLaw(env: Env, m: Message) {
    && m.feeCap.Some?
    && if env.isLondon then m.gasPrice == Min(m.feeCap.value, env.baseFee + m.tip) else m.gasPrice <= m.feeCap.value
  }

  // NewEVM: with base fees disabled, the environment for a message at price zero has no base fee.
  function NewEvm(block: Env, gasPrice: u256): Env {
    if block.noBaseFee && gasPrice == 0 then block.(baseFee := 0) else block
  }

  // The environment is as NewEVM leaves it for the message.
  predicate Constructed(env: Env, m: Message) { env == NewEvm(env, m.gasPrice) }

  // The part of the price that nobody receives.
  function Vanishing(env: Env, m: Message): int
    requires env.isLondon ==> m.feeCap.Some?
  {
    m.gasPrice - EffectiveTip(env, m) - BurnPrice(env, m)
  }

  // For a paid message the base fee vanishes after London if there is no burn contract, and nothing otherwise.
  lemma VanishingBaseFee(env: Env, m: Message)
    requires PriceLaw(env, m) && !m.isFree && (env.isLondon ==> env.baseFee <= m.feeCap.value)
    ensures env.isLondon ==> EffectiveTip(env, m) + env.baseFee == m.gasPrice
    ensures Vanishing(env, m) == if env.isLondon && env.burntContract.None? then env.baseFee else 0
  {
  }

  // Paying out more than the sender paid is possible exactly when a burn is paid for a fee cap below the
  // base fee.
  lemma VanishingSign(env: Env, m: Message)
    requires PriceLaw(env, m)
    ensures Vanishing(env, m) >= 0 <==>
            !(env.isLondon && !m.isFree && env.burntContract.Some? && m.gasPrice < env.baseFee)
  {
  }

  // The dynamic-fee price of AsMessage: a wrapping sum, capped.
  function EffectivePrice(feeCap: u256, tip: u256, baseFee: u256): u256 {
    var p := Wrap256(baseFee + tip);
    if p > feeCap then feeCap else p
  }

  // Its wrap-around is out of reach of every message that can pay for two units of gas.
  lemma EffectivePriceExact(feeCap: u256, tip: u256, baseFee: u256, gas: u64, balance: u256)
    requires gas >= 2 && gas * feeCap <= balance && tip <= feeCap && baseFee <= feeCap
    ensures EffectivePrice(feeCap, tip, baseFee) == Min(feeCap, baseFee + tip)
  {
  }

  lemma MulMonotone(x: nat, y: nat, z: nat)
    requires x <= y
    ensures x * z <= y * z
  {
  }

  // CheckEip1559TxGasFeeCap.
  function CheckFeeCap(feeCap: u256, tip: u256, baseFee: u256, isFree: bool): (err: Option<TxError>)
    ensures err.None? <==> tip <= feeCap && (baseFee <= feeCap || isFree)
  {
    if feeCap < tip then Some(ErrTipAboveFeeCap)
    else if feeCap < baseFee && !isFree then Some(ErrFeeCapTooLow)
    else None
  }

  // ----- Buying gas -----

  // Everything that buyGas checks, on the values before the call.
  ghost predicate Buyable(env: Env, m: Message, w: World, poolGas: u64, poolBlobGas: u64, gasBailout: bool) {
    && GasCost(m) < TWO_256
    && (env.isCancun ==> env.blobBaseFee.Some? && BlobFee(env, m) < TWO_256 && m.blobGas <= poolBlobGas)
    && (!gasBailout ==> Required(env, m) <= w.Balance(m.from))
    && m.gas <= poolGas
  }

  // A buyable message of a capped price leaves its sender at least the value, and no debit wraps.
  lemma BuyingLeavesValue(env: Env, m: Message, w: World, poolGas: u64, poolBlobGas: u64)
    requires Buyable(env, m, w, poolGas, poolBlobGas, false)
    requires m.feeCap.Some? && m.gasPrice <= m.feeCap.value
    requires m.blobGas > 0 && env.isCancun ==> env.blobBaseFee.value <= m.maxFeePerBlobGas
    ensures GasCost(m) + BlobFee(env, m) + m.value <= w.Balance(m.from)
  {
    MulMonotone(m.gasPrice, m.feeCap.value, m.gas);
    if env.isCancun && m.blobGas > 0 {
      MulMonotone(env.blobBaseFee.value, m.maxFeePerBlobGas, m.blobGas);
    }
  }

  // Which messages never wrap, whatever balance the check lets through: exactly those whose cost is within
  // what the check asks for.
  lemma DebitsSafeIff(env: Env, m: Message)
    requires GasCost(m) < TWO_256 && Required(env, m) < TWO_256
    requires env.isCancun ==> env.blobBaseFee.Some? && BlobFee(env, m) < TWO_256
    ensures (forall w :: Buyable(env, m, w, m.gas, m.blobGas, false) ==> GasCost(m) + BlobFee(env, m) <= w.Balance(m.from))
            <==> GasCost(m) + BlobFee(env, m) <= Required(env, m)
  {
    hide GasCost, BlobFee, Required;
    var w := World(map[m.from := Required(env, m)], map[], map[], {}, 0);
    assert Buyable(env, m, w, m.gas, m.blobGas, false);
  }

  // The same for preCheck as a whole, for a message whose fees and nonce it can accept.
  lemma PassingSafeIff(env: Env, m: Message)
    requires (env.isLondon ==> m.feeCap.Some?) && FeesAccepted(env, m) && (m.checkNonce ==> m.nonce + 1 < TWO_64)
    requires GasCost(m) < TWO_256 && Required(env, m) < TWO_256
    requires env.isCancun ==> env.blobBaseFee.Some? && BlobFee(env, m) < TWO_256
    ensures (forall w :: Passes(env, m, w, m.gas, m.blobGas, false) ==> GasCost(m) + BlobFee(env, m) <= w.Balance(m.from))
            <==> GasCost(m) + BlobFee(env, m) <= Required(env, m)
  {
    hide GasCost, BlobFee, Required, FeesAccepted;
    var w := World(map[m.from := Required(env, m)], map[m.from := m.nonce], map[], {}, 0);
    assert Passes(env, m, w, m.gas, m.blobGas, false);
  }

  // The state after a successful purchase.
  function Bought(env: Env, m: Message, w: World, gasBailout: bool): World
    requires GasCost(m) < TWO_256 && BlobFee(env, m) < TWO_256
  {
    if gasBailout then w else w.SubBalance(m.from, GasCost(m)).SubBalance(m.from, BlobFee(env, m))
  }

  // ----- What is paid out -----

  lemma Share(used: nat, quotient: nat)
    requires quotient >= 2
    ensures 0 <= used / quotient <= used
  {
    var q := used / quotient;
    assert used == q * quotient + used % quotient;
    if q > used {
      MulMonotone(1, quotient, q);
    }
  }

  // The refund: what the counter holds, capped by a share of the gas used.
  function Refund(used: u64, quotient: nat, counter: u64): (r: u64)
    requires quotient >= 2
    ensures r <= counter && r <= used / quotient && r <= used && (r == counter || r == used / quotient)
  {
    Share(used, quotient);
    if used / quotient > counter then counter else used / quotient
  }

  // With the price split into tip, burn and a vanishing rest, refund, tip and burn add up to the purchase
  // minus what vanishes.
  lemma PayoutSplit(price: nat, tip: nat, burn: nat, gas: nat, remaining: nat)
    requires tip + burn <= price && remaining <= gas
    ensures var used := gas - remaining;
            && remaining * price + used * tip + used * burn == gas * price - used * (price - tip - burn)
            && 0 <= used * tip && 0 <= used * burn && 0 <= remaining * price && 0 <= used * (price - tip - burn)
  {
  }

  lemma MulNonNegative(x: nat, y: nat)
    ensures 0 <= x * y
  {
  }

  // The three credits at the end of a transition, one after the other.
  function PaidOut(env: Env, m: Message, w: World, remaining: u64): World
    requires remaining <= m.gas && (env.isLondon ==> m.feeCap.Some?)
  {
    Burnt(env, m, Tipped(env, m, Refunded(m, w, remaining), m.gas - remaining), m.gas - remaining)
  }

  function Refunded(m: Message, w: World, remaining: u64): World {
    w.AddBalance(m.from, Wrap256(remaining * m.gasPrice))
  }

  function Tipped(env: Env, m: Message, w: World, used: u64): World
    requires env.isLondon ==> m.feeCap.Some?
  {
    w.AddBalance(env.coinbase, Wrap256(used * EffectiveTip(env, m)))
  }

  function Burnt(env: Env, m: Message, w: World, used: u64): World {
    if !m.isFree && env.isLondon && env.burntContract.Some?
    then w.AddBalance(env.burntContract.value, Wrap256(used * env.baseFee)) else w
  }

  // No credit wraps around, and together they return what was bought minus what vanishes, whoever the
  // sender, the coinbase and the burn contract are.
  lemma PaidOutTotal(env: Env, m: Message, w: World, remaining: u64)
    requires remaining <= m.gas && (env.isLondon ==> m.feeCap.Some?)
    requires Vanishing(env, m) >= 0 && w.Total() + GasCost(m) < TWO_256
    ensures remaining * m.gasPrice < TWO_256
    ensures (m.gas - remaining) * EffectiveTip(env, m) < TWO_256
    ensures (m.gas - remaining) * BurnPrice(env, m) < TWO_256
    ensures PaidOut(env, m, w, remaining).Total() ==
            w.Total() + GasCost(m) - (m.gas - remaining) * Vanishing(env, m)
  {
    hide Wrap256, Sum;
    var used, tip, burn := m.gas - remaining, EffectiveTip(env, m), BurnPrice(env, m);
    PayoutSplit(m.gasPrice, tip, burn, m.gas, remaining);
    Wrap256Small(remaining * m.gasPrice);
    Wrap256Small(used * tip);
    Wrap256Small(used * burn);
    AddTotal(w, m.from, remaining * m.gasPrice);
    var w1 := Refunded(m, w, remaining);
    AddTotal(w1, env.coinbase, used * tip);
    var w2 := Tipped(env, m, w1, used);
    if !m.isFree && env.isLondon && env.burntContract.Some? {
      AddTotal(w2, env.burntContract.value, used * burn);
    } else {
      assert used * burn == 0;
    }
  }

  // ----- What a whole transition does -----

  // What preCheck establishes about the fees when base fees are not disabled.
  predicate FeesOk(env: Env, m: Message) {
    && (env.isLondon ==> m.feeCap.Some? && m.tip <= m.feeCap.value && (env.baseFee <= m.feeCap.value || m.isFree))
    && (m.blobGas > 0 && env.isCancun ==> env.blobBaseFee.Some? && env.blobBaseFee.value <= m.maxFeePerBlobGas)
  }

  // With base fees disabled, a message without fees skips the first check, and any blob price passes.
  predicate FeesAccepted(env: Env, m: Message)
    requires env.isLondon ==> m.feeCap.Some?
  {
    if !env.noBaseFee then FeesOk(env, m)
    else
      && (env.isLondon && !(m.feeCap.value == 0 && m.tip == 0) ==>
            m.tip <= m.feeCap.value && (env.baseFee <= m.feeCap.value || m.isFree))
      && (m.blobGas > 0 && env.isCancun ==> env.blobBaseFee.Some?)
  }

  predicate NonceOk(m: Message, w: World) {
    w.Nonce(m.from) == m.nonce && m.nonce + 1 < TWO_64 && !w.CodeOf(m.from).Contract?
  }

  // The messages that preCheck lets through.
  ghost predicate Passes(env: Env, m: Message, w: World, poolGas: u64, poolBlobGas: u64, gasBailout: bool)
    requires env.isLondon ==> m.feeCap.Some?
  {
    && (m.checkNonce ==> NonceOk(m, w)) && FeesAccepted(env, m)
    && Buyable(env, m, w, poolGas, poolBlobGas, gasBailout)
  }

  // The messages that come to execution once their gas is bought.
  predicate Runs(m: Message) {
    && !(m.to.None? && m.auths != [])
    && m.intrinsicGas.Some? && m.intrinsicGas.value <= m.gas
    && !(m.to.None? && m.initCodeTooLarge)
  }

  // The reason that a rejection gives is true of the message.
  ghost predicate Caused(env: Env, m: Message, w: World, poolGas: u64, poolBlobGas: u64, gasBailout: bool, e: TxError) {
    match e
    case ErrNonceTooHigh => m.checkNonce && w.Nonce(m.from) < m.nonce
    case ErrNonceTooLow => m.checkNonce && w.Nonce(m.from) > m.nonce
    case ErrNonceMax => m.checkNonce && w.Nonce(m.from) == m.nonce == TWO_64 - 1
    case ErrSenderNoEOA => m.checkNonce && w.CodeOf(m.from).Contract?
    case ErrTipAboveFeeCap => env.isLondon && m.feeCap.Some? && m.tip > m.feeCap.value
    case ErrFeeCapTooLow => env.isLondon && m.feeCap.Some? && m.feeCap.value < env.baseFee && !m.isFree
    case ErrInternalFailure => env.isCancun && env.blobBaseFee.None?
    case ErrMaxFeePerBlobGas =>
      m.blobGas > 0 && env.isCancun && env.blobBaseFee.Some? && env.blobBaseFee.value > m.maxFeePerBlobGas
    case ErrInsufficientFunds =>
      GasCost(m) >= TWO_256 || BlobFee(env, m) >= TWO_256 || (!gasBailout && Required(env, m) > w.Balance(m.from))
    case ErrBlobGasLimitReached => env.isCancun && m.blobGas > poolBlobGas
    case ErrGasLimitReached => m.gas > poolGas
    case ErrCreateWithAuths => m.to.None? && m.auths != []
    case ErrGasUintOverflow => m.intrinsicGas.None?
    case ErrIntrinsicGas => m.intrinsicGas.Some? && m.intrinsicGas.value > m.gas
    case ErrMaxInitCodeSize => m.to.None? && m.initCodeTooLarge
  }

  // The state that execution starts from. The nonce of a creation is left to the EVM.
  function Prepared(env: Env, m: Message, w: World): World {
    if m.to.None? then w
    else ApplyAll(w.SetNonce(m.from, Wrap64(w.Nonce(m.from) + 1)), env.chainID, m.auths)
  }

  // Execution, from the state after the purchase.
  function Execution(env: Env, m: Message, w: World, gasBailout: bool, evm: Evm): Outcome
    requires Runs(m)
  {
    var start := Prepared(env, m, w);
    evm(start, m.gas - m.intrinsicGas.value, gasBailout && m.value != 0 && start.Balance(m.from) < m.value)
  }

  function Quotient(env: Env): nat { if env.isLondon then REFUND_QUOTIENT_EIP3529 else REFUND_QUOTIENT }

  // The gas that is not charged: what execution left over, and the refund.
  function Unused(env: Env, m: Message, o: Outcome, refunds: bool): (g: u64)
    requires o.gasLeft <= m.gas
    ensures o.gasLeft <= g <= o.gasLeft + (m.gas - o.gasLeft) / Quotient(env) && g <= m.gas
  {
    if refunds then o.gasLeft + Refund(m.gas - o.gasLeft, Quotient(env), o.world.refund) else o.gasLeft
  }

  // The state after the payments.
  function Settled(env: Env, m: Message, o: Outcome, refunds: bool): World
    requires o.gasLeft <= m.gas && (env.isLondon ==> m.feeCap.Some?)
  {
    var remaining := Unused(env, m, o, refunds);
    if refunds then PaidOut(env, m, o.world, remaining)
    else Burnt(env, m, Tipped(env, m, o.world, m.gas - remaining), m.gas - remaining)
  }

  lemma PreparedTotal(env: Env, m: Message, w: World)
    ensures Prepared(env, m, w).Total() == w.Total()
  {
    hide Sum, ApplyAll;
    if m.to.Some? {
      BalancesKept(w.SetNonce(m.from, Wrap64(w.Nonce(m.from) + 1)), env.chainID, m.auths);
    }
  }

  // ----- Which messages are applied, written out -----

  // What a message costs at these prices for gas and blobs.
  function Cost(m: Message, price: nat, blobPrice: nat): nat { m.gas * price + m.blobGas * blobPrice + m.value }

  // The balance covers the message at every price within its caps.
  ghost predicate Affords(env: Env, m: Message, balance: nat)
    requires m.feeCap.Some?
  {
    forall price: nat, blobPrice: nat ::
      price <= m.feeCap.value && blobPrice <= (if env.isCancun then m.maxFeePerBlobGas else 0) ==> Cost(m, price, blobPrice) <= balance
  }

  // The balance that is asked for is what the message can cost at most.
  lemma RequiredIff(env: Env, m: Message, balance: nat)
    requires m.feeCap.Some?
    ensures Required(env, m) <= balance <==> Affords(env, m, balance)
  {
    var top := if env.isCancun then m.maxFeePerBlobGas else 0;
    assert Cost(m, m.feeCap.value, top) == Required(env, m);
    forall price: nat, blobPrice: nat | price <= m.feeCap.value && blobPrice <= top
      ensures Cost(m, price, blobPrice) <= Required(env, m)
    {
      MulMonotone(price, m.feeCap.value, m.gas);
      MulMonotone(blobPrice, top, m.blobGas);
    }
  }

  // The messages that are applied, by what the message, its environment, its sender and the pool are.
  lemma AppliedIff(env: Env, m: Message, w: World, poolGas: u64, poolBlobGas: u64, gasBailout: bool)
    requires env.isLondon ==> m.feeCap.Some?
    ensures Passes(env, m, w, poolGas, poolBlobGas, gasBailout) && Runs(m) <==>
              && (m.checkNonce ==> w.Nonce(m.from) == m.nonce < 0xffff_ffff_ffff_ffff && w.CodeOf(m.from) != Contract)
              && (env.isLondon && !(env.noBaseFee && m.feeCap == Some(0) && m.tip == 0) ==>
                    m.tip <= m.feeCap.value && (m.isFree || env.baseFee <= m.feeCap.value))
              && (env.isCancun ==>
                    && env.blobBaseFee.Some? && env.blobBaseFee.value * m.blobGas < TWO_256 && m.blobGas <= poolBlobGas
                    && (m.blobGas > 0 && !env.noBaseFee ==> env.blobBaseFee.value <= m.maxFeePerBlobGas))
              && m.gas <= poolGas && m.gas * m.gasPrice < TWO_256
              && (gasBailout || if m.feeCap.Some? then Affords(env, m, w.Balance(m.from)) else m.gas * m.gasPrice <= w.Balance(m.from))
              && (m.to.None? ==> m.auths == [] && !m.initCodeTooLarge)
              && m.intrinsicGas.Some? && m.intrinsicGas.value <= m.gas
  {
    if m.feeCap.Some? {
      RequiredIff(env, m, w.Balance(m.from));
    }
    hide Affords, Required;
  }

  // ----- What the EVM is given -----

  // The sender of a call with the next nonce.
  function Called(w: World, from: Address): World {
    w.(nonce := w.nonce[from := (w.Nonce(from) + 1) % 0x1_0000_0000_0000_0000], exist := w.exist + {from})
  }

  // The EVM gets the gas that the intrinsic gas leaves, and the state with nonce and authorisations applied.
  lemma Offered(env: Env, m: Message, w: World, gasBailout: bool, evm: Evm) returns (start: World, gas: u64, bailout: bool)
    requires Runs(m)
    ensures Execution(env, m, w, gasBailout, evm) == evm(start, gas, bailout) && gas + m.intrinsicGas.value == m.gas
    ensures bailout <==> gasBailout && m.value != 0 && w.Balance(m.from) < m.value
    ensures m.to.None? || m.auths == [] ==> start == if m.to.None? then w else Called(w, m.from)
    ensures start.balance == w.balance && (m.to.Some? ==> Prepares(env, m, w, start))
  {
    hide ApplyAll, Wrap64;
    start, gas := Prepared(env, m, w), m.gas - m.intrinsicGas.value;
    bailout := gasBailout && m.value != 0 && start.Balance(m.from) < m.value;
    CalledIs(w, m.from);
    AllOfNone(Called(w, m.from), env.chainID);
    BalancesKept(Called(w, m.from), env.chainID, m.auths);
    PreparesCall(env, m, w);
  }

  // Every nonce rises by the number of authorisations in effect for the account, and that of the sender by one more;
  // the refund counter by 12500 for each of an account that is not new.
  ghost predicate Prepares(env: Env, m: Message, w: World, start: World) {
    var w1 := Called(w, m.from);
    && start.refund == (w.refund + 12500 * Refunds(w1, env.chainID, m.auths)) % 0x1_0000_0000_0000_0000
    && forall a :: start.Nonce(a) ==
                   (w.Nonce(a) + (if a == m.from then 1 else 0) + Count(w1, env.chainID, m.auths, a)) % 0x1_0000_0000_0000_0000
  }

  lemma CalledIs(w: World, from: Address)
    ensures Called(w, from) == w.SetNonce(from, Wrap64(w.Nonce(from) + 1))
  {
  }

  lemma PreparesCall(env: Env, m: Message, w: World)
    ensures Prepares(env, m, w, ApplyAll(Called(w, m.from), env.chainID, m.auths))
  {
    hide ApplyAll, Count, Refunds;
    var w1 := Called(w, m.from);
    RefundLaw(w1, env.chainID, m.auths);
    forall a
      ensures ApplyAll(w1, env.chainID, m.auths).Nonce(a) ==
              (w.Nonce(a) + (if a == m.from then 1 else 0) + Count(w1, env.chainID, m.auths, a)) % 0x1_0000_0000_0000_0000
    {
      NonceLaw(w1, env.chainID, m.auths, a);
      Wrap64Add(w.Nonce(a) + 1, Count(w1, env.chainID, m.auths, a));
    }
  }

  // The gas that is charged: all that the EVM did not give back, the intrinsic gas among it, less the refund, which is
  // the counter up to a fifth, before London half, of it. Without refunds there is none.
  lemma GasCharged(env: Env, m: Message, w: World, gasBailout: bool, evm: Evm, refunds: bool)
    requires Runs(m) && Sane(evm)
    ensures var o := Execution(env, m, w, gasBailout, evm);
            && o.gasLeft <= m.gas - m.intrinsicGas.value
            && var spent, used := m.gas - o.gasLeft, m.gas - Unused(env, m, o, refunds);
               used == spent - if refunds then Min(o.world.refund, if env.isLondon then spent / 5 else spent / 2) else 0
  {
    hide Sum, ApplyAll;
  }

  // An EVM that does nothing: it gives back the gas and the state that it is given.
  ghost predicate Idle(evm: Evm) { forall w, g, b :: evm(w, g, b).world == w && evm(w, g, b).gasLeft == g }

  // With such an EVM, a message without refunds to claim uses its intrinsic gas.
  lemma IntrinsicOnly(env: Env, m: Message, w: World, gasBailout: bool, evm: Evm, refunds: bool)
    requires Runs(m) && Idle(evm) && m.auths == [] && w.refund == 0
    ensures var o := Execution(env, m, w, gasBailout, evm);
            o.gasLeft <= m.gas && m.gas - Unused(env, m, o, refunds) == m.intrinsicGas.value
  {
    var start, gas, bailout := Offered(env, m, w, gasBailout, evm);
    hide Execution, Sum;
    assert Unused(env, m, Execution(env, m, w, gasBailout, evm), refunds) == gas;
  }

  // ----- What each account pays and gets -----

  // What the coinbase gets for each unit of gas: the tip, as far as the fee cap leaves room for it above the base fee.
  function TipPrice(env: Env, m: Message): int
    requires env.isLondon ==> m.feeCap.Some?
  {
    if env.isLondon then Min(m.tip, Max(m.feeCap.value - env.baseFee, 0)) else m.gasPrice
  }

  // What an account gets at the end: the sender for the gas not used, the coinbase and the burn contract for the gas used.
  function Credits(env: Env, m: Message, used: u64, refunds: bool, a: Address): int
    requires used <= m.gas && (env.isLondon ==> m.feeCap.Some?)
  {
    (if refunds && a == m.from then (m.gas - used) * m.gasPrice else 0)
    + (if a == env.coinbase then used * TipPrice(env, m) else 0)
    + (if Burns(env, m, a) then used * env.baseFee else 0)
  }

  // One credit, with wrap-around: the balance, and whether it is this account that gets it.
  ghost predicate Credited(w: World, w': World, a: Address, got: bool, amount: nat) {
    && w'.Balance(a) == Wrap256(w.Balance(a) + if got then amount else 0)
    && w'.nonce == w.nonce && w'.code == w.code && w'.refund == w.refund && (a in w'.exist <==> a in w.exist || got)
  }

  lemma Credit(w: World, b: Address, amount: nat, a: Address)
    ensures Credited(w, w.AddBalance(b, Wrap256(amount)), a, a == b, amount)
  {
    Wrap256Add(amount, w.Balance(b));
    Wrap256Small(w.Balance(a));
  }

  lemma NoCredit(w: World, a: Address, amount: nat)
    ensures Credited(w, w, a, false, amount)
  {
    Wrap256Small(w.Balance(a));
  }

  lemma CreditAll(w0: World, w1: World, w2: World, w3: World, a: Address, g1: bool, x1: nat, g2: bool, x2: nat, g3: bool, x3: nat)
    requires Credited(w0, w1, a, g1, x1) && Credited(w1, w2, a, g2, x2) && Credited(w2, w3, a, g3, x3)
    ensures w3.Balance(a) == Wrap256(w0.Balance(a) + (if g1 then x1 else 0) + (if g2 then x2 else 0) + (if g3 then x3 else 0))
    ensures w3.nonce == w0.nonce && w3.code == w0.code && w3.refund == w0.refund
    ensures a in w3.exist <==> a in w0.exist || g1 || g2 || g3
  {
    hide Wrap256;
    var y1 := w0.Balance(a) + if g1 then x1 else 0;
    Wrap256Add(y1, if g2 then x2 else 0);
    Wrap256Add(y1 + (if g2 then x2 else 0), if g3 then x3 else 0);
  }

  // The account is the burn contract, and is paid.
  predicate Burns(env: Env, m: Message, a: Address) { env.isLondon && !m.isFree && env.burntContract == Some(a) }

  lemma TipIs(env: Env, m: Message)
    requires env.isLondon ==> m.feeCap.Some?
    ensures EffectiveTip(env, m) == TipPrice(env, m)
  {
  }

  lemma CreditsAre(env: Env, m: Message, remaining: u64, refunds: bool, a: Address)
    requires remaining <= m.gas && (env.isLondon ==> m.feeCap.Some?)
    ensures var used := m.gas - remaining;
            && 0 <= remaining * m.gasPrice && 0 <= used * EffectiveTip(env, m)
            && Credits(env, m, used, refunds, a) ==
               (if refunds && a == m.from then remaining * m.gasPrice else 0)
               + (if a == env.coinbase then used * EffectiveTip(env, m) else 0) + (if Burns(env, m, a) then used * env.baseFee else 0)
  {
    TipIs(env, m);
    MulNonNegative(remaining, m.gasPrice);
    MulNonNegative(m.gas - remaining, EffectiveTip(env, m));
  }

  // Account by account, with wrap-around: the credits, and nothing but the credits.
  lemma SettledEach(env: Env, m: Message, o: Outcome, refunds: bool, a: Address)
    requires o.gasLeft <= m.gas && (env.isLondon ==> m.feeCap.Some?)
    ensures var w, used := Settled(env, m, o, refunds), m.gas - Unused(env, m, o, refunds);
            && w.Balance(a) == Wrap256(o.world.Balance(a) + Credits(env, m, used, refunds, a))
            && w.nonce == o.world.nonce && w.code == o.world.code && w.refund == o.world.refund
            && (a in w.exist <==> a in o.world.exist || (refunds && a == m.from) || a == env.coinbase || Burns(env, m, a))
  {
    var remaining := Unused(env, m, o, refunds);
    hide Unused, Credits, Burns, PaidOut;
    PaidEach(env, m, o.world, remaining, refunds, a);
  }

  lemma PaidEach(env: Env, m: Message, w0: World, remaining: u64, refunds: bool, a: Address)
    requires remaining <= m.gas && (env.isLondon ==> m.feeCap.Some?)
    ensures var used := m.gas - remaining;
            var w := if refunds then PaidOut(env, m, w0, remaining) else Burnt(env, m, Tipped(env, m, w0, used), used);
            && w.Balance(a) == Wrap256(w0.Balance(a) + Credits(env, m, used, refunds, a))
            && w.nonce == w0.nonce && w.code == w0.code && w.refund == w0.refund
            && (a in w.exist <==> a in w0.exist || (refunds && a == m.from) || a == env.coinbase || Burns(env, m, a))
  {
    hide Wrap256, World.AddBalance, World.Balance, EffectiveTip, TipPrice, Credited, Burns, Burnt, Credits;
    var used := m.gas - remaining;
    CreditsAre(env, m, remaining, refunds, a);
    var x1: nat, x2: nat := remaining * m.gasPrice, used * EffectiveTip(env, m);
    var w1 := if refunds then Refunded(m, w0, remaining) else w0;
    Credit(w0, m.from, x1, a);
    NoCredit(w0, a, x1);
    Credit(w1, env.coinbase, x2, a);
    var w2 := Tipped(env, m, w1, used);
    BurntEach(env, m, w2, used, a);
    CreditAll(w0, w1, w2, Burnt(env, m, w2, used), a,
              refunds && a == m.from, x1, a == env.coinbase, x2, Burns(env, m, a), used * env.baseFee);
  }

  lemma BurntEach(env: Env, m: Message, w: World, used: u64, a: Address)
    ensures 0 <= used * env.baseFee && Credited(w, Burnt(env, m, w, used), a, Burns(env, m, a), used * env.baseFee)
  {
    hide Wrap256, World.AddBalance, World.Balance, Credited;
    MulNonNegative(used, env.baseFee);
    NoCredit(w, a, used * env.baseFee);
    if env.burntContract.Some? {
      Credit(w, env.burntContract.value, used * env.baseFee, a);
    }
  }

  // What the sender pays at the start.
  function Price(env: Env, m: Message, gasBailout: bool): int
    requires env.isCancun ==> env.blobBaseFee.Some?
  {
    if gasBailout then 0 else m.gas * m.gasPrice + if env.isCancun then env.blobBaseFee.value * m.blobGas else 0
  }

  lemma Debit(w: World, b: Address, amount: u256, a: Address)
    ensures var w' := w.SubBalance(b, amount);
            && w'.Balance(a) == Wrap256(w.Balance(a) - if a == b then amount else 0)
            && w'.nonce == w.nonce && w'.code == w.code && w'.refund == w.refund
  {
    Wrap256Small(w.Balance(a));
  }

  lemma PriceIs(env: Env, m: Message)
    requires env.isCancun ==> env.blobBaseFee.Some?
    ensures Price(env, m, false) == GasCost(m) + BlobFee(env, m) && Price(env, m, true) == 0
  {
  }

  lemma BoughtEach(env: Env, m: Message, w: World, gasBailout: bool, a: Address)
    requires GasCost(m) < TWO_256 && BlobFee(env, m) < TWO_256 && (env.isCancun ==> env.blobBaseFee.Some?)
    ensures var w' := Bought(env, m, w, gasBailout);
            && w'.Balance(a) == Wrap256(w.Balance(a) - if a == m.from then Price(env, m, gasBailout) else 0)
            && w'.nonce == w.nonce && w'.code == w.code && w'.refund == w.refund
  {
    hide GasCost, BlobFee, Price, World.SubBalance, World.Balance, Wrap256;
    PriceIs(env, m);
    Wrap256Small(w.Balance(a));
    Debit(w, m.from, GasCost(m), a);
    Debit(w.SubBalance(m.from, GasCost(m)), m.from, BlobFee(env, m), a);
    Wrap256Add(w.Balance(a) - GasCost(m), 0 - BlobFee(env, m));
  }

  // The balance of an account after a message that used so much gas, when execution moves nothing: what the sender paid
  // and the credits.
  function Charged(env: Env, m: Message, w: World, used: u64, refunds: bool, gasBailout: bool, a: Address): int
    requires used <= m.gas && (env.isLondon ==> m.feeCap.Some?) && (env.isCancun ==> env.blobBaseFee.Some?)
  {
    w.Balance(a) - (if a == m.from then Price(env, m, gasBailout) else 0) + Credits(env, m, used, refunds, a)
  }

  // What a message leaves of the old state when execution changes nothing, with wrap-around.
  ghost predicate Leaves(env: Env, m: Message, w: World, used: u64, refunds: bool, gasBailout: bool, w': World)
    requires used <= m.gas && (env.isLondon ==> m.feeCap.Some?) && (env.isCancun ==> env.blobBaseFee.Some?)
  {
    && (forall a :: w'.Balance(a) == Wrap256(Charged(env, m, w, used, refunds, gasBailout, a)))
    && w'.code == w.code && w'.refund == w.refund
    && forall a :: w'.Nonce(a) == (w.Nonce(a) + if m.to.Some? && a == m.from then 1 else 0) % 0x1_0000_0000_0000_0000
  }

  // An EVM that leaves the state alone.
  ghost predicate Passive(evm: Evm) { forall w, g, b :: evm(w, g, b).world == w }

  lemma SettledLeaves(env: Env, m: Message, w: World, gasBailout: bool, evm: Evm, refunds: bool)
    requires (env.isLondon ==> m.feeCap.Some?) && (env.isCancun ==> env.blobBaseFee.Some?)
    requires GasCost(m) < TWO_256 && BlobFee(env, m) < TWO_256
    requires Runs(m) && Sane(evm) && Passive(evm) && m.auths == []
    ensures var o := Execution(env, m, Bought(env, m, w, gasBailout), gasBailout, evm);
            && o.gasLeft <= m.gas
            && Leaves(env, m, w, m.gas - Unused(env, m, o, refunds), refunds, gasBailout, Settled(env, m, o, refunds))
  {
    hide Sum, Wrap256, GasCost, BlobFee, Bought, Settled, Unused, Execution, Credits, Price;
    var bought := Bought(env, m, w, gasBailout);
    LeftBound(env, m, bought, gasBailout, evm);
    var start, gas, bailout := Offered(env, m, bought, gasBailout, evm);
    var o := Execution(env, m, bought, gasBailout, evm);
    hide Sane, Runs, Prepares;
    forall a
      ensures Settled(env, m, o, refunds).Balance(a) ==
              Wrap256(Charged(env, m, w, m.gas - Unused(env, m, o, refunds), refunds, gasBailout, a))
    {
      BoughtEach(env, m, w, gasBailout, a);
      SettledEach(env, m, o, refunds, a);
      Wrap256Add(w.Balance(a) - (if a == m.from then Price(env, m, gasBailout) else 0),
                 Credits(env, m, m.gas - Unused(env, m, o, refunds), refunds, a));
    }
    BoughtEach(env, m, w, gasBailout, m.from);
    SettledEach(env, m, o, refunds, m.from);
  }

  // What a message that is applied pays: at least four fifths, before London half, of its intrinsic gas, and all of it
  // without refunds. With an EVM that leaves the state alone, the accounts change by the payments only, and with one
  // that also gives back its gas just the intrinsic gas is paid for.
  ghost predicate Pays(env: Env, m: Message, w: World, refunds: bool, gasBailout: bool, evm: Evm, used: u64, w': World) {
    && m.intrinsicGas.Some? && used <= m.gas
    && (if !refunds then used >= m.intrinsicGas.value
        else if env.isLondon then 5 * used >= 4 * m.intrinsicGas.value else 2 * used >= m.intrinsicGas.value)
    && (env.isLondon ==> m.feeCap.Some?) && (env.isCancun ==> env.blobBaseFee.Some?)
    && (Passive(evm) && m.auths == [] ==> Leaves(env, m, w, used, refunds, gasBailout, w'))
    && (Idle(evm) && m.auths == [] && w.refund == 0 ==> used == m.intrinsicGas.value)
  }

  lemma TransitionPays(env: Env, m: Message, w: World, gasBailout: bool, evm: Evm, refunds: bool)
    requires (env.isLondon ==> m.feeCap.Some?) && (env.isCancun ==> env.blobBaseFee.Some?)
    requires GasCost(m) < TWO_256 && BlobFee(env, m) < TWO_256 && Sane(evm)
    ensures Runs(m) ==>
              var o := Execution(env, m, Bought(env, m, w, gasBailout), gasBailout, evm);
              && o.gasLeft <= m.gas
              && Pays(env, m, w, refunds, gasBailout, evm, m.gas - Unused(env, m, o, refunds), Settled(env, m, o, refunds))
  {
    if Runs(m) {
      hide Wrap256, GasCost, BlobFee, Bought, Settled, Unused, Execution, Leaves, World.Balance;
      var bought := Bought(env, m, w, gasBailout);
      GasCharged(env, m, bought, gasBailout, evm, refunds);
      BoughtEach(env, m, w, gasBailout, m.from);
      if Passive(evm) && m.auths == [] {
        SettledLeaves(env, m, w, gasBailout, evm, refunds);
      }
      if Idle(evm) && m.auths == [] && w.refund == 0 {
        IntrinsicOnly(env, m, bought, gasBailout, evm, refunds);
      }
    }
  }

  class StateTransition {
    const gp: GasPool
    const db: StateDb
    const msg: Message
    const env: Env
    var gasRemaining: u64
    var initialGas: u64
    var blobFee: u256

    constructor (gp: GasPool, db: StateDb, msg: Message, env: Env)
      ensures this.gp == gp && this.db == db && this.msg == msg && this.env == env
      ensures gasRemaining == 0 && initialGas == 0
    {
      this.gp, this.db, this.msg, this.env := gp, db, msg, env;
      gasRemaining, initialGas, blobFee := 0, 0, 0;
    }

    // The balance that buyGas asks for; None when a 256-bit operation overflows.
    method BalanceCheck(gasVal: u256) returns (want: Option<u256>)
      requires gasVal == GasCost(msg)
      ensures want.Some? ==> want.value == Required(env, msg)
      ensures want.None? ==> Required(env, msg) >= TWO_256
    {
      if msg.feeCap.None? {
        return Some(gasVal);
      }
      var check := msg.gas * msg.feeCap.value;
      if check >= TWO_256 {
        return None;
      }
      check := check + msg.value;
      if check >= TWO_256 {
        return None;
      }
      if env.isCancun {
        var maxBlobFee := msg.maxFeePerBlobGas * msg.blobGas;
        if maxBlobFee >= TWO_256 {
          return None;
        }
        check := check + maxBlobFee;
        if check >= TWO_256 {
          return None;
        }
      }
      want := Some(check);
    }

    method BuyGas(gasBailout: bool) returns (err: Option<TxError>)
      requires gasRemaining == 0
      modifies this, gp, db
      ensures err.None? <==> Buyable(env, msg, old(db.w), old(gp.gas), old(gp.blobGas), gasBailout)
      ensures err.None? ==>
                && db.w == Bought(env, msg, old(db.w), gasBailout)
                && gp.gas == old(gp.gas) - msg.gas
                && gp.blobGas == old(gp.blobGas) - (if env.isCancun then msg.blobGas else 0)
                && gasRemaining == initialGas == msg.gas && blobFee == BlobFee(env, msg)
      ensures err.Some? ==> Caused(env, msg, old(db.w), old(gp.gas), old(gp.blobGas), gasBailout, err.value)
    {
      hide GasCost, BlobFee, Required, World.SubBalance, World.Balance, Wrap64;
      var gasVal := GasCost(msg);
      if gasVal >= TWO_256 {
        return Some(ErrInsufficientFunds);
      }
      var blobErr, blobGasVal := BuyBlobGas(gasBailout);
      if blobErr.Some? {
        return blobErr;
      }
      if !gasBailout {
        var want := BalanceCheck(gasVal);
        if want.None? || db.w.Balance(msg.from) < want.value {
          return Some(ErrInsufficientFunds);
        }
        db.w := db.w.SubBalance(msg.from, gasVal);
        db.w := db.w.SubBalance(msg.from, blobGasVal);
      }
      var ok := gp.SubGas(msg.gas);
      if !ok {
        return Some(ErrGasLimitReached);
      }
      Wrap64Small(msg.gas);
      gasRemaining := Wrap64(gasRemaining + msg.gas);
      initialGas := msg.gas;
      blobFee := blobGasVal;
      err := None;
    }

    // The part of buyGas about blobs.
    method BuyBlobGas(ghost gasBailout: bool) returns (err: Option<TxError>, fee: u256)
      modifies gp`blobGas
      ensures err.None? <==>
        (env.isCancun ==> env.blobBaseFee.Some? && BlobFee(env, msg) < TWO_256 && msg.blobGas <= old(gp.blobGas))
      ensures err.None? ==> fee == BlobFee(env, msg)
      ensures err.Some? ==> Caused(env, msg, old(db.w), old(gp.gas), old(gp.blobGas), gasBailout, err.value)
      ensures err.None? ==> gp.blobGas == old(gp.blobGas) - (if env.isCancun then msg.blobGas else 0)
    {
      if !env.isCancun {
        return None, 0;
      }
      if env.blobBaseFee.None? {
        return Some(ErrInternalFailure), 0;
      }
      var blobGasVal := env.blobBaseFee.value * msg.blobGas;
      if blobGasVal >= TWO_256 {
        return Some(ErrInsufficientFunds), 0;
      }
      var ok := gp.SubBlobGas(msg.blobGas);
      if !ok {
        return Some(ErrBlobGasLimitReached), 0;
      }
      err, fee := None, blobGasVal;
    }

    // The consensus checks on the message, then buyGas.
    method PreCheck(gasBailout: bool) returns (err: Option<TxError>)
      requires gasRemaining == 0 && (env.isLondon ==> msg.feeCap.Some?)
      modifies this, gp, db
      ensures err.None? <==> Passes(env, msg, old(db.w), old(gp.gas), old(gp.blobGas), gasBailout)
      ensures err.Some? ==> Caused(env, msg, old(db.w), old(gp.gas), old(gp.blobGas), gasBailout, err.value)
      ensures err.None? ==>
                && db.w == Bought(env, msg, old(db.w), gasBailout)
                && gp.gas == old(gp.gas) - msg.gas
                && gp.blobGas == old(gp.blobGas) - (if env.isCancun then msg.blobGas else 0)
                && gasRemaining == initialGas == msg.gas && blobFee == BlobFee(env, msg)
    {
      hide Buyable, Bought;
      if msg.checkNonce {
        var stNonce := db.w.Nonce(msg.from);
        if stNonce < msg.nonce {
          return Some(ErrNonceTooHigh);
        } else if stNonce > msg.nonce {
          return Some(ErrNonceTooLow);
        } else if Wrap64(stNonce + 1) < stNonce {
          return Some(ErrNonceMax);
        }
        if db.w.CodeOf(msg.from) == Contract {
          return Some(ErrSenderNoEOA);
        }
      }
      if env.isLondon {
        var skipCheck := env.noBaseFee && msg.feeCap.value == 0 && msg.tip == 0;
        if !skipCheck {
          var e := CheckFeeCap(msg.feeCap.value, msg.tip, env.baseFee, msg.isFree);
          if e.Some? {
            return e;
          }
        }
      }
      if msg.blobGas > 0 && env.isCancun {
        if env.blobBaseFee.None? {
          return Some(ErrInternalFailure);
        }
        if !env.noBaseFee && env.blobBaseFee.value > msg.maxFeePerBlobGas {
          return Some(ErrMaxFeePerBlobGas);
        }
      }
      err := BuyGas(gasBailout);
    }

    // refundGas: raises the remaining gas by the refund, pays for it, and gives it back to the pool.
    method RefundGas(quotient: nat) returns (panicked: bool)
      requires quotient >= 2 && gasRemaining <= initialGas == msg.gas
      modifies this`gasRemaining, gp, db
      ensures var remaining := old(gasRemaining) + Refund(msg.gas - old(gasRemaining), quotient, old(db.w.refund));
              && gasRemaining == remaining <= msg.gas
              && db.w == Refunded(msg, old(db.w), remaining)
              && (panicked <==> old(gp.gas) + remaining >= TWO_64)
              && (!panicked ==> gp.gas == old(gp.gas) + remaining)
      ensures gp.blobGas == old(gp.blobGas)
    {
      hide Wrap256;
      var refund := (initialGas - gasRemaining) / quotient;
      if refund > db.w.refund {
        refund := db.w.refund;
      }
      assert refund == Refund(initialGas - gasRemaining, quotient, db.w.refund);
      gasRemaining := gasRemaining + refund;
      db.w := db.w.AddBalance(msg.from, Wrap256(gasRemaining * msg.gasPrice));
      panicked := gp.AddGas(gasRemaining);
    }

    // The tip to the coinbase and the burn.
    method PayFees() returns (amount: u256)
      requires gasRemaining <= initialGas == msg.gas && (env.isLondon ==> msg.feeCap.Some?)
      modifies db
      ensures var used := msg.gas - gasRemaining; db.w == Burnt(env, msg, Tipped(env, msg, old(db.w), used), used)
      ensures amount == Wrap256((msg.gas - gasRemaining) * EffectiveTip(env, msg))
    {
      var effectiveTip := msg.gasPrice;
      if env.isLondon {
        if msg.feeCap.value > env.baseFee {
          effectiveTip := Min(msg.tip, msg.feeCap.value - env.baseFee);
        } else {
          effectiveTip := 0;
        }
      }
      var used := initialGas - gasRemaining;
      amount := Wrap256(used * effectiveTip);
      db.w := db.w.AddBalance(env.coinbase, amount);
      if !msg.isFree && env.isLondon {
        if env.burntContract.Some? {
          db.w := db.w.AddBalance(env.burntContract.value, Wrap256(used * env.baseFee));
        }
      }
    }

    // Nonce, authorisations, intrinsic gas and execution: the steps between purchase and refund.
    method Run(gasBailout: bool, evm: Evm) returns (err: Option<TxError>, failed: bool)
      requires gasRemaining == initialGas == msg.gas
      modifies this`gasRemaining, db
      ensures err.None? <==> Runs(msg)
      ensures err.Some? ==> forall w, gas, blobGas :: Caused(env, msg, w, gas, blobGas, gasBailout, err.value)
      ensures err.None? ==> Outcome(db.w, gasRemaining, failed) == Execution(env, msg, old(db.w), gasBailout, evm)
    {
      hide Sum, ApplyAll, Wrap64;
      failed := false;
      var contractCreation := msg.to.None?;
      if !contractCreation {
        db.w := db.w.SetNonce(msg.from, Wrap64(db.w.Nonce(msg.from) + 1));
      }
      AllOfNone(db.w, env.chainID);
      if |msg.auths| > 0 {
        if contractCreation {
          return Some(ErrCreateWithAuths), false;
        }
        var verified := ApplyAuthorizations(db, env.chainID, msg.auths);
      }
      assert db.w == Prepared(env, msg, old(db.w));
      if msg.intrinsicGas.None? {
        return Some(ErrGasUintOverflow), false;
      }
      if gasRemaining < msg.intrinsicGas.value {
        return Some(ErrIntrinsicGas), false;
      }
      gasRemaining := gasRemaining - msg.intrinsicGas.value;
      var bailout := false;
      if gasBailout {
        if msg.value != 0 && db.w.Balance(msg.from) < msg.value {
          bailout := true;
        }
      }
      if msg.initCodeTooLarge && contractCreation {
        return Some(ErrMaxInitCodeSize), false;
      }
      var outcome := evm(db.w, gasRemaining, bailout);
      db.w := outcome.world;
      gasRemaining := outcome.gasLeft;
      return None, outcome.failed;
    }

    // The refund, if there is one, and the fees.
    method Settle(refunds: bool, ghost failed: bool) returns (amount: u256, panicked: bool)
      requires gasRemaining <= initialGas == msg.gas && (env.isLondon ==> msg.feeCap.Some?)
      modifies this`gasRemaining, gp, db
      ensures var o := Outcome(old(db.w), old(gasRemaining), failed);
              var remaining := Unused(env, msg, o, refunds);
              && gasRemaining == remaining && db.w == Settled(env, msg, o, refunds)
              && amount == Wrap256((msg.gas - remaining) * EffectiveTip(env, msg))
              && (panicked <==> refunds && old(gp.gas) + remaining >= TWO_64)
              && (!panicked ==> gp.gas == old(gp.gas) + if refunds then remaining else 0)
      ensures gp.blobGas == old(gp.blobGas)
    {
      hide Wrap256, Refund, Refunded, Tipped, Burnt;
      panicked := false;
      if refunds {
        panicked := RefundGas(if env.isLondon then REFUND_QUOTIENT_EIP3529 else REFUND_QUOTIENT);
      }
      amount := PayFees();
    }

    // TransitionDb: exactly which messages are applied, what they leave behind, and that the gas pool never
    // panics.
    method TransitionDb(refunds: bool, gasBailout: bool, evm: Evm) returns (r: TxResult, panicked: bool)
      requires gasRemaining == 0 && (env.isLondon ==> msg.feeCap.Some?) && Sane(evm)
      modifies this, gp, db
      ensures !panicked
      ensures r.Done? <==> Passes(env, msg, old(db.w), old(gp.gas), old(gp.blobGas), gasBailout) && Runs(msg)
      ensures r.Rejected? ==> Caused(env, msg, old(db.w), old(gp.gas), old(gp.blobGas), gasBailout, r.error)
      ensures r.Done? ==>
                var o := Execution(env, msg, Bought(env, msg, old(db.w), gasBailout), gasBailout, evm);
                && o.gasLeft <= msg.gas && r.failed == o.failed
                && r.usedGas == msg.gas - Unused(env, msg, o, refunds && !gasBailout)
                && r.feeTipped == Wrap256(r.usedGas * EffectiveTip(env, msg))
                && db.w == Settled(env, msg, o, refunds && !gasBailout)
                && gp.gas == old(gp.gas) - (if refunds && !gasBailout then r.usedGas else msg.gas)
                && gp.blobGas == old(gp.blobGas) - (if env.isCancun then msg.blobGas else 0)
      ensures r.Done? ==> Pays(env, msg, old(db.w), refunds && !gasBailout, gasBailout, evm, r.usedGas, db.w)
    {
      hide Wrap256, Wrap64, Bought, Passes, Runs, Caused, Execution, Settled, Unused, Pays;
      panicked := false;
      ghost var w0 := db.w;
      PurchaseOk(env, msg, db.w, gp.gas, gp.blobGas, gasBailout);
      var err := PreCheck(gasBailout);
      if err.Some? {
        return Rejected(err.value), false;
      }
      LeftBound(env, msg, db.w, gasBailout, evm);
      TransitionPays(env, msg, w0, gasBailout, evm, refunds && !gasBailout);
      hide Sane;
      var failed;
      err, failed := Run(gasBailout, evm);
      if err.Some? {
        return Rejected(err.value), false;
      }
      var amount;
      amount, panicked := Settle(refunds && !gasBailout, failed);
      r := Done(initialGas - gasRemaining, failed, amount);
    }
  }

  lemma AllOfNone(w: World, chainID: u256)
    ensures ApplyAll(w, chainID, []) == w
  {
  }

  lemma PurchaseOk(env: Env, m: Message, w: World, poolGas: u64, poolBlobGas: u64, gasBailout: bool)
    requires env.isLondon ==> m.feeCap.Some?
    ensures Passes(env, m, w, poolGas, poolBlobGas, gasBailout) ==>
              && GasCost(m) < TWO_256 && BlobFee(env, m) < TWO_256 && m.gas <= poolGas
              && (env.isCancun ==> env.blobBaseFee.Some?)
  {
  }

  lemma LeftBound(env: Env, m: Message, w: World, gasBailout: bool, evm: Evm)
    requires Sane(evm)
    ensures Runs(m) ==> Execution(env, m, w, gasBailout, evm).gasLeft <= m.gas
    ensures Runs(m) ==> Execution(env, m, w, gasBailout, evm).world.Total() <= w.Total()
  {
    hide Sum, ApplyAll;
    PreparedTotal(env, m, w);
  }

  // The base fee that a paid message sees is within its fee cap, also if base fees are disabled.
  lemma BaseFeeCapped(env: Env, m: Message)
    requires m.feeCap.Some? && m.gasPrice <= m.feeCap.value && FeesAccepted(env, m) && Constructed(env, m)
    ensures env.isLondon && !m.isFree ==> env.baseFee <= m.feeCap.value
  {
  }

  // Conservation: for a message that is applied with refunds and without bailout, the sum of all balances falls
  // by what execution destroyed, the blob fee, and the part of the gas price that nobody receives. With base fees
  // disabled the sender's balance has to cover the cost; otherwise preCheck sees to it.
  lemma TransitionTotal(env: Env, m: Message, w: World, poolGas: u64, poolBlobGas: u64, evm: Evm)
    requires (env.isLondon ==> m.feeCap.Some?) && Sane(evm) && PriceLaw(env, m) && Constructed(env, m)
    requires Passes(env, m, w, poolGas, poolBlobGas, false) && Runs(m) && w.Total() < TWO_256
    requires env.noBaseFee ==> GasCost(m) + BlobFee(env, m) <= w.Balance(m.from)
    ensures GasCost(m) < TWO_256 && BlobFee(env, m) < TWO_256 && Vanishing(env, m) >= 0
    ensures !m.isFree ==> Vanishing(env, m) == if env.isLondon && env.burntContract.None? then env.baseFee else 0
    ensures var bought := Bought(env, m, w, false);
            var o := Execution(env, m, bought, false, evm);
            && o.gasLeft <= m.gas && o.world.Total() <= bought.Total()
            && var used := m.gas - Unused(env, m, o, true);
               Settled(env, m, o, true).Total() ==
               w.Total() - (bought.Total() - o.world.Total()) - BlobFee(env, m) - used * Vanishing(env, m)
  {
    NothingCreated(env, m);
    CostCovered(env, m, w, poolGas, poolBlobGas);
    hide Sum, Wrap256, Execution, Bought, PaidOut, GasCost, BlobFee, Vanishing;
    PurchaseOk(env, m, w, poolGas, poolBlobGas, false);
    var bought := Bought(env, m, w, false);
    LeftBound(env, m, bought, false, evm);
    var o := Execution(env, m, bought, false, evm);
    Conserved(env, m, w, bought, o.world, Unused(env, m, o, true));
  }

  // The amounts of such a message stay within 256 bits, so that its accounts are as computed: the purchase does not take
  // more than there is, and no account gets more than all accounts had.
  lemma ChargedExactly(env: Env, m: Message, w: World, used: u64, a: Address)
    requires PriceLaw(env, m) && Vanishing(env, m) >= 0 && (env.isCancun ==> env.blobBaseFee.Some?)
    requires GasCost(m) + BlobFee(env, m) <= w.Balance(m.from) && w.Total() < TWO_256 && used <= m.gas
    ensures 0 <= Charged(env, m, w, used, true, false, a) < TWO_256
    ensures Wrap256(Charged(env, m, w, used, true, false, a)) == Charged(env, m, w, used, true, false, a)
  {
    hide Wrap256, Sum, GasCost, BlobFee, EffectiveTip, World.Balance;
    PriceIs(env, m);
    BlobFeeSign(env, m);
    CreditsWithin(env, m, used, a);
    BoughtTotal(env, m, w);
    BoughtEach(env, m, w, false, a);
    SumBounds(Bought(env, m, w, false).balance, a);
    SumBounds(w.balance, a);
    BalanceIs(w, a);
    BalanceIs(Bought(env, m, w, false), a);
    Wrap256Small(w.Balance(a));
    Wrap256Small(Charged(env, m, w, used, true, false, a));
  }

  lemma BalanceIs(w: World, a: Address)
    ensures w.Balance(a) == if a in w.balance then w.balance[a] else 0
  {
  }

  lemma BlobFeeSign(env: Env, m: Message)
    ensures 0 <= BlobFee(env, m) && 0 <= GasCost(m)
  {
    MulNonNegative(m.gas, m.gasPrice);
  }

  // All credits together are within the price of the gas.
  lemma CreditsWithin(env: Env, m: Message, used: u64, a: Address)
    requires (env.isLondon ==> m.feeCap.Some?) && Vanishing(env, m) >= 0 && used <= m.gas
    ensures 0 <= Credits(env, m, used, true, a) <= GasCost(m)
  {
    CreditsAre(env, m, m.gas - used, true, a);
    PayoutSplit(m.gasPrice, EffectiveTip(env, m), BurnPrice(env, m), m.gas, m.gas - used);
    hide EffectiveTip;
  }

  // With base fees disabled a message with a blob passes whose blob price is above its cap, and the debit wraps
  // around. With base fees on it does not pass.
  lemma DisabledBaseFeeWraps(a: Address)
    ensures var m := Message(a, Some(a), 0, Some(0), 0, 21000, BLOB_GAS_PER_BLOB, 0, 0, 0, true, false, [], Some(21000), false);
            var env := Env(a, 0, Some(1), true, true, true, None, 1);
            var w := World(map[], map[], map[], {}, 0);
            && Constructed(env, m) && Passes(env, m, w, 21000, BLOB_GAS_PER_BLOB, false) && Runs(m)
            && !Passes(env.(noBaseFee := false), m, w, 21000, BLOB_GAS_PER_BLOB, false)
            && BlobFee(env, m) == BLOB_GAS_PER_BLOB && Bought(env, m, w, false).Balance(a) == TWO_256 - BLOB_GAS_PER_BLOB
  {
  }

  // No message whose fees are accepted is paid out more than was bought, in the environment that NewEVM builds for
  // it; its price follows from its caps there if it does for the base fee of the block. What a paid message loses
  // is the base fee after London without a burn contract, and nothing otherwise.
  lemma NothingCreated(block: Env, m: Message)
    requires PriceLaw(block, m) && FeesAccepted(NewEvm(block, m.gasPrice), m)
    ensures var env := NewEvm(block, m.gasPrice);
            && Constructed(env, m) && PriceLaw(env, m) && Vanishing(env, m) >= 0
            && (!m.isFree ==> Vanishing(env, m) == if env.isLondon && env.burntContract.None? then env.baseFee else 0)
  {
    var env := NewEvm(block, m.gasPrice);
    BaseFeeCapped(env, m);
    if !m.isFree {
      VanishingBaseFee(env, m);
    }
  }

  // That needs the zero base fee: with the base fee of the block, exactly the accepted messages without fees would
  // be paid out more than was bought, if base fees are disabled but are paid to a burn contract. NewEVM changes the
  // environment of each of them.
  lemma CreatesIff(block: Env, m: Message)
    requires PriceLaw(block, m) && FeesAccepted(block, m)
    ensures Vanishing(block, m) < 0 <==>
              block.noBaseFee && block.isLondon && block.baseFee > 0 && block.burntContract.Some?
              && m.feeCap.value == 0 && m.tip == 0 && !m.isFree
    ensures Vanishing(block, m) < 0 ==> !Constructed(block, m) && NewEvm(block, m.gasPrice).baseFee == 0
  {
    VanishingSign(block, m);
  }

  // A dynamic-fee message that passes has the price that the results about sums assume, if it buys two units of gas
  // or more and, with base fees disabled, its price did not wrap around; so has a message with one price for
  // everything.
  lemma PriceLawHolds(block: Env, m: Message, w: World, poolGas: u64, poolBlobGas: u64)
    requires m.feeCap.Some? && m.gas >= 2 && !m.isFree && (block.noBaseFee ==> block.baseFee + m.tip < TWO_256)
    requires Passes(NewEvm(block, m.gasPrice), m, w, poolGas, poolBlobGas, false)
    requires || (block.isLondon && m.gasPrice == EffectivePrice(m.feeCap.value, m.tip, block.baseFee))
             || m.gasPrice == m.tip == m.feeCap.value
    ensures PriceLaw(NewEvm(block, m.gasPrice), m)
  {
    if block.isLondon && !block.noBaseFee {
      MulNonNegative(m.maxFeePerBlobGas, m.blobGas);
      assert m.gas * m.feeCap.value <= w.Balance(m.from);
      EffectivePriceExact(m.feeCap.value, m.tip, block.baseFee, m.gas, w.Balance(m.from));
    } else {
      Wrap256Small(block.baseFee + m.tip);
    }
  }

  // With base fees on, a buyable message whose fees are accepted is covered by the balance of its sender.
  lemma CostCovered(env: Env, m: Message, w: World, poolGas: u64, poolBlobGas: u64)
    requires m.feeCap.Some? && m.gasPrice <= m.feeCap.value && Passes(env, m, w, poolGas, poolBlobGas, false)
    ensures !env.noBaseFee ==> GasCost(m) + BlobFee(env, m) + m.value <= w.Balance(m.from)
  {
    if !env.noBaseFee {
      BuyingLeavesValue(env, m, w, poolGas, poolBlobGas);
    }
  }

  // Debits that the balance covers do not wrap and lower the sum by the gas cost and the blob fee.
  lemma BoughtTotal(env: Env, m: Message, w: World)
    requires GasCost(m) + BlobFee(env, m) <= w.Balance(m.from)
    ensures BlobFee(env, m) < TWO_256 && GasCost(m) < TWO_256
    ensures Bought(env, m, w, false).Total() == w.Total() - GasCost(m) - BlobFee(env, m)
    ensures Bought(env, m, w, false).Balance(m.from) == w.Balance(m.from) - GasCost(m) - BlobFee(env, m)
  {
    hide Wrap256, Sum;
    MulNonNegative(m.gas, m.gasPrice);
    SubTotal(w, m.from, GasCost(m));
    SubTotal(w.SubBalance(m.from, GasCost(m)), m.from, BlobFee(env, m));
  }

  // A message that passes preCheck with a capped price keeps its value if base fees are on, and none of the products
  // that are computed without an overflow check leaves 256 bits, whatever the gas used.
  lemma PaymentsFit(env: Env, m: Message, w: World, poolGas: u64, poolBlobGas: u64, used: u64)
    requires (env.isLondon ==> m.feeCap.Some?) && Constructed(env, m) && used <= m.gas
    requires Passes(env, m, w, poolGas, poolBlobGas, false) && m.feeCap.Some? && m.gasPrice <= m.feeCap.value
    ensures !env.noBaseFee ==> GasCost(m) + BlobFee(env, m) + m.value <= w.Balance(m.from)
    ensures (m.gas - used) * m.gasPrice < TWO_256 && used * EffectiveTip(env, m) < TWO_256
    ensures !m.isFree && env.isLondon ==> used * env.baseFee < TWO_256
  {
    CostCovered(env, m, w, poolGas, poolBlobGas);
    BaseFeeCapped(env, m);
    CapFits(env, m, w);
    hide EffectiveTip, GasCost, BlobFee, World.Balance;
    ProductFits(m.gas - used, m.gasPrice, m.gas, m.feeCap.value);
    ProductFits(used, EffectiveTip(env, m), m.gas, m.feeCap.value);
    if !m.isFree && env.isLondon {
      ProductFits(used, env.baseFee, m.gas, m.feeCap.value);
    }
  }

  lemma CapFits(env: Env, m: Message, w: World)
    requires m.feeCap.Some? && m.gasPrice <= m.feeCap.value && Required(env, m) <= w.Balance(m.from)
    ensures m.gas * m.feeCap.value < TWO_256 && EffectiveTip(env, m) <= m.feeCap.value
  {
    MulNonNegative(m.maxFeePerBlobGas, m.blobGas);
  }

  lemma ProductFits(x: nat, y: nat, gas: nat, cap: nat)
    requires x <= gas && y <= cap && gas * cap < TWO_256
    ensures x * y < TWO_256
  {
  }

  // The whole transition, from purchase to payout.
  lemma Conserved(env: Env, m: Message, w0: World, w1: World, w2: World, remaining: u64)
    requires GasCost(m) + BlobFee(env, m) <= w0.Balance(m.from) && PriceLaw(env, m) && Vanishing(env, m) >= 0
    requires GasCost(m) < TWO_256 && BlobFee(env, m) < TWO_256 && w1 == Bought(env, m, w0, false)
    requires w2.Total() <= w1.Total() && w0.Total() < TWO_256 && remaining <= m.gas
    ensures PaidOut(env, m, w2, remaining).Total() ==
            w0.Total() - (w1.Total() - w2.Total()) - BlobFee(env, m) - (m.gas - remaining) * Vanishing(env, m)
  {
    hide Wrap256, Sum, PaidOut, Bought;
    BoughtTotal(env, m, w0);
    PaidOutTotal(env, m, w2, remaining);
  }
}
