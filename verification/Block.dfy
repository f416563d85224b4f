/** Executing the transactions of a block: core/state_processor.go and the transaction loop of
    ExecuteBlockEphemerally in core/blockchain.go.
 */
module Blocks {
  import opened Words
  import opened World
  import opened GasPools
  import opened Transition

  // A transaction as a message, together with what executing it does.
  datatype Tx = Tx(msg: Message, evm: Evm)

  datatype Receipt = Receipt(cumulativeGasUsed: u64, gasUsed: u64, failed: bool)

  datatype BlockError = TxRejected(index: nat, error: TxError) | GasUsedMismatch | BlobGasUsedMismatch

  datatype BlockResult = Executed(receipts: seq<Receipt>, gasUsed: u64) | Invalid(error: BlockError)

  function GasSum(rs: seq<Receipt>): nat {
    if rs == [] then 0 else GasSum(rs[..|rs| - 1]) + rs[|rs| - 1].gasUsed
  }

  function BlobGasSum(txs: seq<Tx>): nat {
    if txs == [] then 0 else BlobGasSum(txs[..|txs| - 1]) + txs[|txs| - 1].msg.blobGas
  }

  // What the transactions take out of circulation apart from execution: blob fees, and the part of each gas
  // price that nobody receives.
  ghost function Fees(env: Env, txs: seq<Tx>, rs: seq<Receipt>): int
    requires |txs| == |rs|
    requires env.isLondon ==> forall tx <- txs :: tx.msg.feeCap.Some?
  {
    if txs == [] then 0 else
      var n := |txs| - 1;
      var m := txs[n].msg;
      Fees(env, txs[..n], rs[..n]) + BlobFee(env, m) + rs[n].gasUsed * Vanishing(env, m)
  }

  // Every receipt's cumulative gas is the gas of the transactions up to it.
  predicate Cumulative(rs: seq<Receipt>) {
    forall i :: 0 <= i < |rs| ==> rs[i].cumulativeGasUsed == GasSum(rs[..i + 1])
  }

  lemma CumulativeSnoc(rs: seq<Receipt>, r: Receipt)
    requires Cumulative(rs) && r.cumulativeGasUsed == GasSum(rs) + r.gasUsed
    ensures Cumulative(rs + [r]) && GasSum(rs + [r]) == GasSum(rs) + r.gasUsed
  {
    var s := rs + [r];
    assert s[..|s| - 1] == rs;
    forall i | 0 <= i < |s|
      ensures s[i].cumulativeGasUsed == GasSum(s[..i + 1])
    {
      if i < |rs| {
        assert s[..i + 1] == rs[..i + 1];
      } else {
        assert s[..i + 1] == s;
      }
    }
  }

  lemma BlobGasSnoc(txs: seq<Tx>, i: nat)
    requires i < |txs|
    ensures BlobGasSum(txs[..i + 1]) == BlobGasSum(txs[..i]) + txs[i].msg.blobGas
  {
    assert txs[..i + 1][..i] == txs[..i];
  }

  lemma FeesSnoc(env: Env, txs: seq<Tx>, i: nat, rs: seq<Receipt>, r: Receipt)
    requires i < |txs| && |rs| == i
    requires env.isLondon ==> forall tx <- txs :: tx.msg.feeCap.Some?
    ensures Fees(env, txs[..i + 1], rs + [r]) ==
            Fees(env, txs[..i], rs) + BlobFee(env, txs[i].msg) + r.gasUsed * Vanishing(env, txs[i].msg)
  {
    assert txs[..i + 1][..i] == txs[..i] && (rs + [r])[..i] == rs;
  }

  // What execution itself destroyed.
  ghost function Destroyed(env: Env, tx: Tx, w: World): int
    requires GasCost(tx.msg) < TWO_256 && BlobFee(env, tx.msg) < TWO_256 && Runs(tx.msg)
  {
    var bought := Bought(env, tx.msg, w, false);
    bought.Total() - Execution(env, tx.msg, bought, false, tx.evm).world.Total()
  }

  // ----- The transactions of a block, one after the other -----

  datatype Progress = Progress(w: World, gas: u64, blobGas: u64)

  ghost predicate Applies(env: Env, tx: Tx, p: Progress)
    requires env.isLondon ==> tx.msg.feeCap.Some?
  {
    Passes(env, tx.msg, p.w, p.gas, p.blobGas, false) && Runs(tx.msg)
  }

  // State and pools after a transaction that applies.
  ghost function Next(env: Env, tx: Tx, p: Progress): Progress
    requires (env.isLondon ==> tx.msg.feeCap.Some?) && Sane(tx.evm) && Applies(env, tx, p)
  {
    PurchaseOk(env, tx.msg, p.w, p.gas, p.blobGas, false);
    var bought := Bought(env, tx.msg, p.w, false);
    LeftBound(env, tx.msg, bought, false, tx.evm);
    var o := Execution(env, tx.msg, bought, false, tx.evm);
    Progress(Settled(env, tx.msg, o, true).(refund := 0),
             p.gas - (tx.msg.gas - Unused(env, tx.msg, o, true)),
             if env.isCancun then p.blobGas - tx.msg.blobGas else p.blobGas)
  }

  // State and pools after all transactions; None if one of them does not apply when its turn comes.
  ghost function Through(env: Env, txs: seq<Tx>, p: Progress): Option<Progress>
    requires env.isLondon ==> forall tx <- txs :: tx.msg.feeCap.Some?
    requires forall tx <- txs :: Sane(tx.evm)
  {
    if txs == [] then Some(p) else
      var n := |txs| - 1;
      var q := Through(env, txs[..n], p);
      if q.Some? && Applies(env, txs[n], q.value) then Some(Next(env, txs[n], q.value)) else None
  }

  lemma ThroughSnoc(env: Env, txs: seq<Tx>, i: nat, p: Progress)
    requires env.isLondon ==> forall tx <- txs :: tx.msg.feeCap.Some?
    requires forall tx <- txs :: Sane(tx.evm)
    requires i < |txs|
    ensures var q := Through(env, txs[..i], p);
            Through(env, txs[..i + 1], p) ==
            if q.Some? && Applies(env, txs[i], q.value) then Some(Next(env, txs[i], q.value)) else None
  {
    assert txs[..i + 1][..i] == txs[..i] && txs[..i + 1][i] == txs[i];
  }

  // Once a transaction does not apply, no longer list does.
  lemma {:induction false} ThroughNone(env: Env, txs: seq<Tx>, i: nat, p: Progress)
    requires env.isLondon ==> forall tx <- txs :: tx.msg.feeCap.Some?
    requires forall tx <- txs :: Sane(tx.evm)
    requires i <= |txs| && Through(env, txs[..i], p).None?
    ensures Through(env, txs, p).None?
    decreases |txs| - i
  {
    if i == |txs| {
      assert txs[..i] == txs;
    } else {
      ThroughSnoc(env, txs, i, p);
      ThroughNone(env, txs, i + 1, p);
    }
  }

  // What the executions of all transactions destroyed.
  ghost function DestroyedSum(env: Env, txs: seq<Tx>, p: Progress): int
    requires env.isLondon ==> forall tx <- txs :: tx.msg.feeCap.Some?
    requires forall tx <- txs :: Sane(tx.evm)
    requires Through(env, txs, p).Some?
  {
    if txs == [] then 0 else
      var n := |txs| - 1;
      var q := Through(env, txs[..n], p).value;
      PurchaseOk(env, txs[n].msg, q.w, q.gas, q.blobGas, false);
      DestroyedSum(env, txs[..n], p) + Destroyed(env, txs[n], q.w)
  }

  lemma DestroyedSnoc(env: Env, txs: seq<Tx>, i: nat, p: Progress, q: Progress)
    requires env.isLondon ==> forall tx <- txs :: tx.msg.feeCap.Some?
    requires forall tx <- txs :: Sane(tx.evm)
    requires i < |txs| && Through(env, txs[..i], p) == Some(q) && Applies(env, txs[i], q)
    ensures Through(env, txs[..i + 1], p).Some? && Runs(txs[i].msg)
    ensures GasCost(txs[i].msg) < TWO_256 && BlobFee(env, txs[i].msg) < TWO_256
    ensures DestroyedSum(env, txs[..i + 1], p) == DestroyedSum(env, txs[..i], p) + Destroyed(env, txs[i], q.w)
  {
    hide Destroyed, Passes, Next, Runs, GasCost, BlobFee;
    PurchaseOk(env, txs[i].msg, q.w, q.gas, q.blobGas, false);
    ThroughSnoc(env, txs, i, p);
    assert txs[..i + 1][..i] == txs[..i] && txs[..i + 1][i] == txs[i];
  }

  // An EVM that only moves balances.
  ghost predicate Conserves(evm: Evm) { forall w, g, b :: evm(w, g, b).world.Total() == w.Total() }

  // With such EVMs nothing is destroyed.
  lemma {:induction false} NothingDestroyed(env: Env, txs: seq<Tx>, p: Progress)
    requires env.isLondon ==> forall tx <- txs :: tx.msg.feeCap.Some?
    requires forall tx <- txs :: Sane(tx.evm)
    requires forall tx <- txs :: Conserves(tx.evm)
    requires Through(env, txs, p).Some?
    ensures DestroyedSum(env, txs, p) == 0
    decreases |txs|
  {
    if txs != [] {
      var n := |txs| - 1;
      var q := Through(env, txs[..n], p).value;
      NothingDestroyed(env, txs[..n], p);
      PurchaseOk(env, txs[n].msg, q.w, q.gas, q.blobGas, false);
      assert txs[n] in txs;
      DestroysNone(env, txs[n], q.w);
    }
  }

  lemma DestroysNone(env: Env, tx: Tx, w: World)
    requires GasCost(tx.msg) < TWO_256 && BlobFee(env, tx.msg) < TWO_256 && Runs(tx.msg) && Conserves(tx.evm)
    ensures Destroyed(env, tx, w) == 0
  {
    hide Sum, Bought, Prepared;
    PreparedTotal(env, tx.msg, Bought(env, tx.msg, w, false));
  }

  // After each transaction, the pool and the gas used so far add up to the limit.
  ghost predicate Offset(env: Env, txs: seq<Tx>, p: Progress, rs: seq<Receipt>)
    requires env.isLondon ==> forall tx <- txs :: tx.msg.feeCap.Some?
    requires forall tx <- txs :: Sane(tx.evm)
  {
    |rs| <= |txs| && forall i :: 0 <= i < |rs| ==> Balance(Through(env, txs[..i + 1], p), rs[i], p.gas)
  }

  ghost predicate Balance(q: Option<Progress>, r: Receipt, gasLimit: u64) {
    q.Some? && q.value.gas + r.cumulativeGasUsed == gasLimit
  }

  lemma OffsetSnoc(env: Env, txs: seq<Tx>, p: Progress, rs: seq<Receipt>, r: Receipt)
    requires env.isLondon ==> forall tx <- txs :: tx.msg.feeCap.Some?
    requires forall tx <- txs :: Sane(tx.evm)
    requires Offset(env, txs, p, rs) && |rs| < |txs| && Balance(Through(env, txs[..|rs| + 1], p), r, p.gas)
    ensures Offset(env, txs, p, rs + [r])
  {
    hide Through, Balance;
    forall i | 0 <= i < |rs| + 1
      ensures Balance(Through(env, txs[..i + 1], p), (rs + [r])[i], p.gas)
    {
      assert i < |rs| ==> (rs + [r])[i] == rs[i];
    }
  }

  // The receipt says how the execution of the transaction ended, and what it took out of the pool.
  ghost predicate Records(env: Env, tx: Tx, q: Option<Progress>, q': Option<Progress>, r: Receipt)
    requires env.isLondon ==> tx.msg.feeCap.Some?
  {
    && q.Some? && q'.Some? && Applies(env, tx, q.value) && r.gasUsed == q.value.gas - q'.value.gas
    && q'.value.w.refund == 0 && r.failed == EvmOutcome(env, tx, q.value).failed
  }

  // How the transaction's execution ends from this state.
  ghost function EvmOutcome(env: Env, tx: Tx, q: Progress): Outcome
    requires (env.isLondon ==> tx.msg.feeCap.Some?) && Applies(env, tx, q)
  {
    PurchaseOk(env, tx.msg, q.w, q.gas, q.blobGas, false);
    Execution(env, tx.msg, Bought(env, tx.msg, q.w, false), false, tx.evm)
  }

  // Every receipt is that of its transaction, run from the state after those before it.
  ghost predicate Recorded(env: Env, txs: seq<Tx>, p: Progress, rs: seq<Receipt>)
    requires env.isLondon ==> forall tx <- txs :: tx.msg.feeCap.Some?
    requires forall tx <- txs :: Sane(tx.evm)
  {
    && |rs| <= |txs|
    && forall i :: 0 <= i < |rs| ==> Records(env, txs[i], Through(env, txs[..i], p), Through(env, txs[..i + 1], p), rs[i])
  }

  lemma RecordedSnoc(env: Env, txs: seq<Tx>, p: Progress, rs: seq<Receipt>, r: Receipt)
    requires env.isLondon ==> forall tx <- txs :: tx.msg.feeCap.Some?
    requires forall tx <- txs :: Sane(tx.evm)
    requires Recorded(env, txs, p, rs) && |rs| < |txs|
    requires Records(env, txs[|rs|], Through(env, txs[..|rs|], p), Through(env, txs[..|rs| + 1], p), r)
    ensures Recorded(env, txs, p, rs + [r])
  {
    hide Through, Records;
    forall i | 0 <= i < |rs| + 1
      ensures Records(env, txs[i], Through(env, txs[..i], p), Through(env, txs[..i + 1], p), (rs + [r])[i])
    {
      assert i < |rs| ==> (rs + [r])[i] == rs[i];
    }
  }

  // applyTransaction: applies the message with refunds, adds its gas to the counters, and clears the refund
  // counter.
  method ApplyTransaction(gp: GasPool, db: StateDb, env: Env, tx: Tx, usedGas: u64, usedBlobGas: u64)
    returns (r: TxResult, receipt: Receipt, usedGas': u64, usedBlobGas': u64, panicked: bool)
    requires env.isLondon ==> tx.msg.feeCap.Some?
    requires Sane(tx.evm)
    modifies gp, db
    ensures !panicked
    ensures var p := Progress(old(db.w), old(gp.gas), old(gp.blobGas));
            && (r.Done? <==> Applies(env, tx, p))
            && (r.Done? ==> Progress(db.w, gp.gas, gp.blobGas) == Next(env, tx, p))
    ensures r.Rejected? ==> Caused(env, tx.msg, old(db.w), old(gp.gas), old(gp.blobGas), false, r.error)
    ensures r.Done? ==>
              && gp.gas == old(gp.gas) - r.usedGas
              && gp.blobGas == old(gp.blobGas) - (if env.isCancun then tx.msg.blobGas else 0)
              && usedGas' == Wrap64(usedGas + r.usedGas) && usedBlobGas' == Wrap64(usedBlobGas + tx.msg.blobGas)
              && receipt == Receipt(usedGas', r.usedGas, r.failed)
              && Records(env, tx, Some(Progress(old(db.w), old(gp.gas), old(gp.blobGas))),
                         Some(Progress(db.w, gp.gas, gp.blobGas)), receipt)
    ensures r.Done? ==> GasCost(tx.msg) < TWO_256 && BlobFee(env, tx.msg) < TWO_256 && Runs(tx.msg)
    ensures r.Done? && !env.noBaseFee && PriceLaw(env, tx.msg) && old(db.w.Total()) < TWO_256 ==>
              && Vanishing(env, tx.msg) >= 0 && Destroyed(env, tx, old(db.w)) >= 0
              && db.w.Total() == old(db.w.Total()) - Destroyed(env, tx, old(db.w)) - BlobFee(env, tx.msg)
                                 - r.usedGas * Vanishing(env, tx.msg)
  {
    hide Sane, Sum, Wrap64, Pays, Passes, Runs, Caused, Execution, Bought, Settled, Unused, GasCost, BlobFee;
    usedGas', usedBlobGas', receipt := usedGas, usedBlobGas, Receipt(0, 0, false);
    PurchaseOk(env, tx.msg, db.w, gp.gas, gp.blobGas, false);
    var st := new StateTransition(gp, db, tx.msg, env);
    r, panicked := st.TransitionDb(true, false, tx.evm);
    if r.Rejected? {
      return;
    }
    if !env.noBaseFee && PriceLaw(env, tx.msg) && old(db.w.Total()) < TWO_256 {
      TransitionTotal(env, tx.msg, old(db.w), old(gp.gas), old(gp.blobGas), tx.evm);
    }
    db.w := db.w.(refund := 0);
    usedGas' := Wrap64(usedGas + r.usedGas);
    usedBlobGas' := Wrap64(usedBlobGas + tx.msg.blobGas);
    receipt := Receipt(usedGas', r.usedGas, r.failed);
  }

  // The reason is true of the transaction in this state.
  ghost predicate Refuses(env: Env, tx: Tx, q: Progress, e: TxError) { Caused(env, tx.msg, q.w, q.gas, q.blobGas, false, e) }

  // The books of the transaction loop after i transactions, from p0 to p.
  ghost predicate Kept(env: Env, txs: seq<Tx>, i: nat, p0: Progress, p: Progress, usedGas: u64, usedBlobGas: u64,
                       rs: seq<Receipt>)
    requires env.isLondon ==> forall tx <- txs :: tx.msg.feeCap.Some?
    requires forall tx <- txs :: Sane(tx.evm)
  {
    && i <= |txs| && |rs| == i && Through(env, txs[..i], p0) == Some(p)
    && Cumulative(rs) && Offset(env, txs, p0, rs) && Recorded(env, txs, p0, rs)
    && usedGas == GasSum(rs) && p.gas + usedGas == p0.gas
    && usedBlobGas == Wrap64(BlobGasSum(txs[..i])) && (env.isCancun ==> p.blobGas + BlobGasSum(txs[..i]) == p0.blobGas)
    && (Ordinary(env, txs, p0.w) ==>
          p.w.Total() == p0.w.Total() - DestroyedSum(env, txs[..i], p0) - Fees(env, txs[..i], rs) <= p0.w.Total())
  }

  // Base fees are on, every price follows from its caps, and the sum of balances fits a word.
  ghost predicate Ordinary(env: Env, txs: seq<Tx>, w: World) {
    !env.noBaseFee && (forall tx <- txs :: PriceLaw(env, tx.msg)) && w.Total() < TWO_256
  }

  lemma KeptStart(env: Env, txs: seq<Tx>, p: Progress)
    requires env.isLondon ==> forall tx <- txs :: tx.msg.feeCap.Some?
    requires forall tx <- txs :: Sane(tx.evm)
    ensures Kept(env, txs, 0, p, p, 0, 0, [])
  {
    hide Sum;
    assert txs[..0] == [];
  }

  lemma KeptStep(env: Env, txs: seq<Tx>, i: nat, p0: Progress, p: Progress, p': Progress, usedGas: u64, usedBlobGas: u64,
                 rs: seq<Receipt>, r: Receipt)
    requires env.isLondon ==> forall tx <- txs :: tx.msg.feeCap.Some?
    requires forall tx <- txs :: Sane(tx.evm)
    requires Kept(env, txs, i, p0, p, usedGas, usedBlobGas, rs) && i < |txs|
    requires Applies(env, txs[i], p) && p' == Next(env, txs[i], p)
    requires GasCost(txs[i].msg) < TWO_256 && BlobFee(env, txs[i].msg) < TWO_256 && Runs(txs[i].msg)
    requires r.cumulativeGasUsed == Wrap64(usedGas + r.gasUsed) && p'.gas == p.gas - r.gasUsed
    requires Records(env, txs[i], Some(p), Some(p'), r)
    requires env.isCancun ==> p'.blobGas == p.blobGas - txs[i].msg.blobGas
    requires Ordinary(env, txs, p0.w) ==>
      && Vanishing(env, txs[i].msg) >= 0 && Destroyed(env, txs[i], p.w) >= 0
      && p'.w.Total() == p.w.Total() - Destroyed(env, txs[i], p.w) - BlobFee(env, txs[i].msg)
                         - r.gasUsed * Vanishing(env, txs[i].msg)
    ensures Kept(env, txs, i + 1, p0, p', r.cumulativeGasUsed, Wrap64(usedBlobGas + txs[i].msg.blobGas), rs + [r])
  {
    hide Sum, Applies, Next, Through, Wrap64, Fees, DestroyedSum, Destroyed, Cumulative, Offset, GasSum, BlobGasSum,
         Vanishing, BlobFee, Ordinary, GasCost, Runs, Records, Recorded;
    Wrap64Small(usedGas + r.gasUsed);
    Wrap64Add(BlobGasSum(txs[..i]), txs[i].msg.blobGas);
    ThroughSnoc(env, txs, i, p0);
    CumulativeSnoc(rs, r);
    BlobGasSnoc(txs, i);
    FeesSnoc(env, txs, i, rs, r);
    DestroyedSnoc(env, txs, i, p0, p);
    OffsetSnoc(env, txs, p0, rs, r);
    RecordedSnoc(env, txs, p0, rs, r);
    BlobFeeNonNegative(env, txs[i].msg, r.gasUsed);
  }

  // The transaction loop, up to the first transaction that is rejected.
  method ApplyTransactions(db: StateDb, env: Env, gp: GasPool, txs: seq<Tx>)
    returns (rejected: Option<TxError>, receipts: seq<Receipt>, usedGas: u64, usedBlobGas: u64, panicked: bool)
    requires env.isLondon ==> forall tx <- txs :: tx.msg.feeCap.Some?
    requires forall tx <- txs :: Sane(tx.evm)
    modifies db, gp
    ensures !panicked && |receipts| <= |txs| && (rejected.None? ==> |receipts| == |txs|)
    ensures var p0 := Progress(old(db.w), old(gp.gas), old(gp.blobGas));
            && (rejected.None? ==> Kept(env, txs, |txs|, p0, Progress(db.w, gp.gas, gp.blobGas), usedGas, usedBlobGas, receipts))
            && (rejected.Some? ==>
                  && |receipts| < |txs| && Through(env, txs[..|receipts|], p0).Some?
                  && Through(env, txs[..|receipts| + 1], p0).None?
                  && Refuses(env, txs[|receipts|], Through(env, txs[..|receipts|], p0).value, rejected.value))
  {
    hide Kept, Applies, Next, Through, Caused, Runs, Records, GasCost, Destroyed, BlobFee, Vanishing, PriceLaw, Wrap64;
    ghost var p0 := Progress(db.w, gp.gas, gp.blobGas);
    usedGas, usedBlobGas, receipts, panicked, rejected := 0, 0, [], false, None;
    KeptStart(env, txs, p0);
    while |receipts| < |txs|
      invariant |receipts| <= |txs| && !panicked
      invariant Kept(env, txs, |receipts|, p0, Progress(db.w, gp.gas, gp.blobGas), usedGas, usedBlobGas, receipts)
    {
      var tx := txs[|receipts|];
      ghost var i, p, ub0 := |receipts|, Progress(db.w, gp.gas, gp.blobGas), usedBlobGas;
      ghost var u0 := usedGas;
      KeptSound(env, txs, i, p0, p, usedGas, usedBlobGas, receipts);
      ThroughSnoc(env, txs, i, p0);
      var receipt, res;
      res, receipt, usedGas, usedBlobGas, panicked := ApplyTransaction(gp, db, env, tx, usedGas, usedBlobGas);
      if res.Rejected? {
        rejected := Some(res.error);
        return;
      }
      KeptStep(env, txs, i, p0, p, Progress(db.w, gp.gas, gp.blobGas), u0, ub0, receipts, receipt);
      receipts := receipts + [receipt];
    }
  }

  lemma KeptSound(env: Env, txs: seq<Tx>, i: nat, p0: Progress, p: Progress, usedGas: u64, usedBlobGas: u64,
                  rs: seq<Receipt>)
    requires env.isLondon ==> forall tx <- txs :: tx.msg.feeCap.Some?
    requires forall tx <- txs :: Sane(tx.evm)
    requires Kept(env, txs, i, p0, p, usedGas, usedBlobGas, rs)
    ensures i <= |txs| && Through(env, txs[..i], p0) == Some(p)
    ensures Ordinary(env, txs, p0.w) ==> p.w.Total() <= p0.w.Total() < TWO_256
  {
  }

  // ExecuteBlockEphemerally: the transaction loop and the gas checks after it. The first rejected transaction
  // invalidates the block.
  method ExecuteBlock(db: StateDb, env: Env, gasLimit: u64, maxBlobGas: u64, txs: seq<Tx>,
                      headerGasUsed: u64, headerBlobGasUsed: Option<u64>)
    returns (r: BlockResult, gp: GasPool, panicked: bool)
    requires env.isLondon ==> forall tx <- txs :: tx.msg.feeCap.Some?
    requires forall tx <- txs :: Sane(tx.evm)
    modifies db
    ensures fresh(gp) && !panicked
    ensures r.Executed? ==>
              && |r.receipts| == |txs| && Cumulative(r.receipts)
              && r.gasUsed == GasSum(r.receipts) == headerGasUsed && gp.gas + GasSum(r.receipts) == gasLimit
    ensures r.Executed? && env.isCancun ==> gp.blobGas + BlobGasSum(txs) == maxBlobGas
    ensures r.Executed? && env.isCancun && headerBlobGasUsed.Some? ==> headerBlobGasUsed.value == BlobGasSum(txs)
    ensures r.Executed? && Ordinary(env, txs, old(db.w)) && (forall tx <- txs :: Conserves(tx.evm)) ==>
              db.w.Total() == old(db.w.Total()) - Fees(env, txs, r.receipts)
    ensures var p := Progress(old(db.w), gasLimit, maxBlobGas);
            && (r.Executed? ==> Through(env, txs, p) == Some(Progress(db.w, gp.gas, gp.blobGas)) 
                                && Offset(env, txs, p, r.receipts) && Recorded(env, txs, p, r.receipts))
            && (r.Executed? && Ordinary(env, txs, old(db.w)) ==>
                  db.w.Total() == old(db.w.Total()) - DestroyedSum(env, txs, p) - Fees(env, txs, r.receipts))
            && (r.Invalid? && r.error.TxRejected? <==> Through(env, txs, p).None?)
            && (r.Invalid? && r.error.TxRejected? ==>
                  && r.error.index < |txs| && Through(env, txs[..r.error.index], p).Some?
                  && Through(env, txs[..r.error.index + 1], p).None?
                  && Refuses(env, txs[r.error.index], Through(env, txs[..r.error.index], p).value, r.error.error))
            && (r == Invalid(GasUsedMismatch) <==>
                  Through(env, txs, p).Some? && gasLimit - Through(env, txs, p).value.gas != headerGasUsed)
            && (r == Invalid(BlobGasUsedMismatch) <==>
                  && Through(env, txs, p).Some? && gasLimit - Through(env, txs, p).value.gas == headerGasUsed
                  && headerBlobGasUsed.Some? && headerBlobGasUsed.value != Wrap64(BlobGasSum(txs)))
            && (Through(env, txs, p).Some? && env.isCancun ==> Wrap64(BlobGasSum(txs)) == BlobGasSum(txs) <= maxBlobGas)
  {
    hide Sane, Sum, GasSum, BlobGasSum, Fees, DestroyedSum, Cumulative, Offset, Through, Ordinary, Conserves, Wrap64,
         Recorded, Refuses;
    gp := new GasPool();
    ghost var p := Progress(db.w, gasLimit, maxBlobGas);
    panicked := gp.AddGas(gasLimit);
    var blobPanicked := gp.AddBlobGas(maxBlobGas);
    var rejected, receipts, usedGas, usedBlobGas, loopPanicked;
    rejected, receipts, usedGas, usedBlobGas, loopPanicked := ApplyTransactions(db, env, gp, txs);
    panicked := panicked || blobPanicked || loopPanicked;
    if rejected.Some? {
      ThroughNone(env, txs, |receipts| + 1, p);
      return Invalid(TxRejected(|receipts|, rejected.value)), gp, panicked;
    }
    assert txs[..|txs|] == txs;
    Wrap64Small(BlobGasSum(txs));
    if forall tx <- txs :: Conserves(tx.evm) {
      NothingDestroyed(env, txs, p);
    }
    if usedGas != headerGasUsed {
      return Invalid(GasUsedMismatch), gp, panicked;
    }
    if headerBlobGasUsed.Some? && usedBlobGas != headerBlobGasUsed.value {
      return Invalid(BlobGasUsedMismatch), gp, panicked;
    }
    r := Executed(receipts, usedGas);
  }

  lemma BlobFeeNonNegative(env: Env, m: Message, used: nat)
    requires env.isLondon ==> m.feeCap.Some?
    ensures BlobFee(env, m) >= 0
    ensures Vanishing(env, m) >= 0 ==> used * Vanishing(env, m) >= 0
  {
  }
}
