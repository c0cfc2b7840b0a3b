/** Money, gas and nonces across one message and across whole runs of messages. */
module TransitionProperties {
  import opened Words
  import opened World
  import opened Intrinsic
  import opened Evm
  import opened CreationProperties
  import opened Transition

  /** A transaction whose gas price is its fee cap: the concrete types return the fee
      cap as their price, or have a single price. */
  predicate WellPriced(tx: Transaction) { tx.gasPrice == tx.gasFeeCap }

  /** Unsigned amounts, a price within the cap, and a tip within the price. */
  predicate Sound(rules: Rules, block: Block, msg: Message) {
    && 0 <= msg.value && 0 <= msg.gasTipCap && 0 <= msg.blobGasFeeCap
    && 0 <= msg.gasPrice <= msg.gasFeeCap
    && (FeesSkipped(block, msg) || EffectiveTip(rules, block, msg) <= msg.gasPrice)
  }

  /** The blob base fee is within the fee cap whenever blobs are charged for. */
  predicate BlobFeeEnforced(rules: Rules, block: Block, msg: Message) {
    !rules.cancun || BlobGasUsed(msg) == 0 || !BlobFeeSkipped(block, msg) || block.blobBaseFee == 0
  }

  /** Messages built from transactions are sound, with the block's base fee or with none. */
  lemma TransactionsAreSound(rules: Rules, block: Block, tx: Transaction, baseFee: Option<nat>)
    requires WellPriced(tx) && (baseFee == None || baseFee == Some(block.baseFee))
    ensures Sound(rules, block, TransactionToMessage(tx, baseFee))
    ensures TransactionToMessage(tx, baseFee).gasPrice == EffectiveGasPrice(tx, baseFee)
  {
  }

  lemma BlobFeeWithinCap(rules: Rules, block: Block, msg: Message)
    requires 0 <= msg.blobGasFeeCap && BlobFeeEnforced(rules, block, msg) && BlobError(rules, block, msg).None?
    ensures rules.cancun ==> BlobFee(rules, block, msg) <= BlobGasUsed(msg) * msg.blobGasFeeCap
  {
    var blobGas := BlobGasUsed(msg);
    if rules.cancun && blobGas > 0 {
      assert block.blobBaseFee <= msg.blobGasFeeCap;
      MulMono(blobGas, block.blobBaseFee, msg.blobGasFeeCap);
    }
  }

  /** Passing the blob checks, the message requires a balance that covers its charge and its value. */
  predicate Payable(rules: Rules, block: Block, msg: Message) {
    BlobError(rules, block, msg).None? ==> Charge(rules, block, msg) + msg.value <= Required(rules, msg)
  }

  lemma EnforcedIsPayable(rules: Rules, block: Block, msg: Message)
    requires Sound(rules, block, msg) && BlobFeeEnforced(rules, block, msg)
    ensures Payable(rules, block, msg)
  {
    if BlobError(rules, block, msg).None? {
      BlobFeeWithinCap(rules, block, msg);
      MulMono(msg.gasLimit, msg.gasPrice, msg.gasFeeCap);
    }
  }

  lemma ChargeIsUnsigned(rules: Rules, block: Block, msg: Message)
    requires Sound(rules, block, msg)
    ensures 0 <= msg.gasLimit * msg.gasPrice <= Charge(rules, block, msg)
  {
    MulMono(msg.gasLimit, 0, msg.gasPrice);
  }

  /** Once admitted, the charge fits a word and the balance, and leaves the value to send. */
  lemma AdmittedIsAffordable(rules: Rules, block: Block, w: World, msg: Message)
    requires Sound(rules, block, msg) && Payable(rules, block, msg)
    requires Admission(rules, block, w, msg).None?
    ensures 0 <= msg.gasLimit * msg.gasPrice <= Charge(rules, block, msg)
    ensures Charge(rules, block, msg) + msg.value <= Required(rules, msg) <= Balance(w, msg.from)
    ensures Balance(Debited(rules, block, w, msg), msg.from) == Balance(w, msg.from) - Charge(rules, block, msg)
    ensures Total(Debited(rules, block, w, msg)) == Total(w) - Charge(rules, block, msg)
  {
    assert BlobError(rules, block, msg).None? && FundsError(rules, w, msg).None?;
    ChargeIsUnsigned(rules, block, msg);
    var charge, required := Charge(rules, block, msg), Required(rules, msg);
    assert 0 <= charge <= required <= Balance(w, msg.from);
    DebitTotal(w, msg.from, charge);
  }

  lemma AdmittedPaysOnlyWhatItHas(rules: Rules, block: Block, w: World, msg: Message)
    requires Sound(rules, block, msg) && Payable(rules, block, msg)
    requires Admission(rules, block, w, msg).None?
    ensures 0 <= msg.value < U256
    ensures msg.gasLimit * msg.gasPrice < U256
  {
    AdmittedIsAffordable(rules, block, w, msg);
  }

  /** After the purchase, only the intrinsic gas and the init code size can still stop a message. */
  lemma LateErrorsAreNotFunds(rules: Rules, block: Block, w: World, msg: Message)
    requires Sound(rules, block, msg) && Payable(rules, block, msg)
    requires Admission(rules, block, w, msg).None?
    ensures LateError(rules, Debited(rules, block, w, msg), msg)
            in {None, Some(TxError.ErrGasUintOverflow), Some(ErrIntrinsicGas), Some(ErrMaxInitCodeSizeExceeded)}
    ensures CanTransfer(Debited(rules, block, w, msg), msg.from, Wrap256(msg.value))
  {
    AdmittedIsAffordable(rules, block, w, msg);
    AdmittedPaysOnlyWhatItHas(rules, block, w, msg);
  }

  lemma CallIsFair(m: Machine, w: World, msg: Message, to: Address, gas: uint64)
    requires FairMachine(m) && Total(w) < U256
    ensures var x := m.call(SetNonce(w, msg.from, Wrap64(Nonce(w, msg.from) + 1)),
                            Frame(msg.from, to, msg.data, gas, Wrap256(msg.value)));
            && x.gas <= gas
            && Keeps(msg.from, w, x.world)
            && (Nonce(w, msg.from) + 1 < U64 && Get(w, msg.from).code == [] ==>
                Nonce(x.world, msg.from) == Nonce(w, msg.from) + 1 && Get(x.world, msg.from).code == [])
  {
    var w1 := SetNonce(w, msg.from, Wrap64(Nonce(w, msg.from) + 1));
    TotalPut(w, msg.from, w1.accounts[msg.from]);
    var f := Frame(msg.from, to, msg.data, gas, Wrap256(msg.value));
    var x := m.call(w1, f);
    assert FairResult(w1, f, x);
    assert forall a :: Undisturbed(w1, x.world, a) by {
      assert Undisturbed(w1, x.world, to);
    }
    forall a | a != msg.from
      ensures Undisturbed(w, x.world, a)
    {
      assert Undisturbed(w1, x.world, a);
    }
    assert Undisturbed(w1, x.world, msg.from);
  }

  /** Executing the message returns no more gas than it got, keeps the supply and every signer but the
      sender, and raises the nonce of a sender without code by one on both paths. */
  lemma ExecutionIsFair(m: Machine, depth: nat, w: World, msg: Message, gas: uint64)
    requires FairMachine(m) && Total(w) < U256
    ensures var x := Execution(m, depth, w, msg, gas);
            && x.gas <= gas
            && Keeps(msg.from, w, x.world)
            && (Refusal(depth, w, msg.from, Wrap256(msg.value)).None? && Get(w, msg.from).code == [] ==>
                Nonce(x.world, msg.from) == Nonce(w, msg.from) + 1 && Get(x.world, msg.from).code == [])
  {
    match msg.to
    case None =>
      CreationIsFair(m, depth, w, msg.from, msg.data, gas, Wrap256(msg.value), NewAddress(m, w, msg.from));
    case Some(to) => CallIsFair(m, w, msg, to, gas);
  }

  /** The capped refund never wraps the gas counter, stays within its share of the gas used, and is
      the largest such that the refund counter allows. */
  lemma RefundIsCapped(limit: uint64, gas: uint64, quotient: nat, counter: uint64)
    requires gas <= limit && quotient > 0
    ensures var refund := Refund(limit, gas, quotient, counter);
            && gas + refund <= limit
            && refund <= counter
            && refund * quotient <= limit - gas
            && (refund == counter || (refund + 1) * quotient > limit - gas)
  {
    var used := limit - gas;
    assert Wrap64(used) == used;
    assert used == used / quotient * quotient + used % quotient;
    var refund := Refund(limit, gas, quotient, counter);
    MulMono(quotient, refund, used / quotient);
    MulMono(used / quotient, 1, quotient);
    assert (used / quotient + 1) * quotient == used / quotient * quotient + quotient;
  }

  /** What each unit of gas used costs beyond the tip. */
  function BurnPerGas(rules: Rules, block: Block, msg: Message): int {
    msg.gasPrice - (if FeesSkipped(block, msg) then 0 else EffectiveTip(rules, block, msg))
  }

  /** The products behind a settlement: what is returned and tipped stays within what was bought. */
  lemma Split(limit: nat, remaining: nat, price: nat, tip: nat)
    requires remaining <= limit && tip <= price
    ensures remaining * price <= limit * price
    ensures 0 <= (limit - remaining) * tip
    ensures remaining * price + (limit - remaining) * tip
         == limit * price - (limit - remaining) * (price - tip)
    ensures remaining * price + (limit - remaining) * tip <= limit * price
  {
    var used := limit - remaining;
    MulSplit(remaining, used, price);
    MulSplit(tip, price - tip, used);
    MulMono(used, tip, price);
    MulMono(used, 0, tip);
    MulMono(price, 0, used);
  }

  /** No credit of a settlement wraps, and the supply changes by what was not given back. */
  lemma CreditsDoNotWrap(rules: Rules, block: Block, w: World, msg: Message, remaining: uint64)
    requires Sound(rules, block, msg) && remaining <= msg.gasLimit && msg.gasPrice < U256
    requires !FeesSkipped(block, msg) ==> 0 <= EffectiveTip(rules, block, msg)
    requires Total(w) + msg.gasLimit * msg.gasPrice < U256
    ensures var used := msg.gasLimit - remaining;
            Total(Tipped(rules, block, Refunded(w, msg, remaining), msg, used))
            == Total(w) + msg.gasLimit * msg.gasPrice - used * BurnPerGas(rules, block, msg)
  {
    var used := msg.gasLimit - remaining;
    var tip := if FeesSkipped(block, msg) then 0 else EffectiveTip(rules, block, msg);
    Split(msg.gasLimit, remaining, msg.gasPrice, tip);
    var refund, fee := remaining * msg.gasPrice, used * tip;
    assert 0 <= refund by { MulMono(remaining, 0, msg.gasPrice); }
    CreditTotal(w, msg.from, refund);
    CreditTotal(Refunded(w, msg, remaining), block.coinbase, fee);
  }

  lemma CreditsReach(rules: Rules, block: Block, w: World, msg: Message, remaining: uint64, a: Address)
    requires Sound(rules, block, msg) && remaining <= msg.gasLimit && msg.gasPrice < U256
    requires !FeesSkipped(block, msg) ==> 0 <= EffectiveTip(rules, block, msg)
    requires Total(w) + msg.gasLimit * msg.gasPrice < U256
    ensures var used := msg.gasLimit - remaining;
            Balance(Tipped(rules, block, Refunded(w, msg, remaining), msg, used), a)
            == Balance(w, a) + (if a == msg.from then remaining * msg.gasPrice else 0)
               + (if a == block.coinbase && !FeesSkipped(block, msg) then used * EffectiveTip(rules, block, msg) else 0)
  {
    var used := msg.gasLimit - remaining;
    var tip := if FeesSkipped(block, msg) then 0 else EffectiveTip(rules, block, msg);
    Split(msg.gasLimit, remaining, msg.gasPrice, tip);
    var refund, fee := remaining * msg.gasPrice, used * tip;
    assert 0 <= refund by { MulMono(remaining, 0, msg.gasPrice); }
    CreditTotal(w, msg.from, refund);
    CreditTotal(Refunded(w, msg, remaining), block.coinbase, fee);
  }

  /** Who gets what at the end, without any wrap: the sender the unused gas at the price it bought it
      for, the coinbase the tip on the gas used, and nobody else anything. */
  lemma WhoIsPaid(rules: Rules, block: Block, pool: uint64, msg: Message, x: ExecResult, a: Address)
    requires Sound(rules, block, msg)
    requires !FeesSkipped(block, msg) ==> 0 <= EffectiveTip(rules, block, msg)
    requires x.gas <= msg.gasLimit && Total(x.world) + msg.gasLimit * msg.gasPrice < U256
    ensures var o := Settled(rules, block, pool, msg, x);
            o.result.Done? ==>
              Balance(o.world, a) == Balance(x.world, a)
                + (if a == msg.from then (msg.gasLimit - o.result.usedGas) * msg.gasPrice else 0)
                + (if a == block.coinbase && !FeesSkipped(block, msg)
                   then o.result.usedGas * EffectiveTip(rules, block, msg) else 0)
  {
    RefundIsCapped(msg.gasLimit, x.gas, Quotient(rules), x.world.refund);
    var remaining := x.gas + Refund(msg.gasLimit, x.gas, Quotient(rules), x.world.refund);
    var o := Settled(rules, block, pool, msg, x);
    if o.result.Done? {
      assert o.result.usedGas == msg.gasLimit - remaining;
      CreditsReach(rules, block, x.world, msg, remaining, a);
    }
  }

  /** A settlement in which no gas counter wraps. */
  lemma SettledFields(rules: Rules, block: Block, pool: uint64, msg: Message, x: ExecResult, remaining: uint64)
    requires remaining == x.gas + Refund(msg.gasLimit, x.gas, Quotient(rules), x.world.refund) <= msg.gasLimit
    ensures var o := Settled(rules, block, pool, msg, x);
            if Overflows256(msg.gasPrice) || pool + remaining > MAX_UINT64 then o.result.Panicked? && o.pool == pool
            else
              && o.result == Done(msg.gasLimit - remaining, remaining - x.gas, x.err, x.ret)
              && o.pool == pool + remaining
              && o.world == Tipped(rules, block, Refunded(x.world, msg, remaining), msg, msg.gasLimit - remaining)
  {
  }

  /** What is refunded for each unit of gas used, at most: a fifth under London rules, a half before. */
  ghost predicate FairShare(rules: Rules, used: nat, refunded: nat, counter: nat) {
    var share := if rules.london then 5 else 2;
    && refunded <= counter
    && refunded * share <= used + refunded
    && (refunded == counter || (refunded + 1) * share > used + refunded)
  }

  lemma Settlement(rules: Rules, block: Block, pool: uint64, msg: Message, x: ExecResult)
    requires Sound(rules, block, msg)
    requires !FeesSkipped(block, msg) ==> 0 <= EffectiveTip(rules, block, msg)
    requires x.gas <= msg.gasLimit && Total(x.world) + msg.gasLimit * msg.gasPrice < U256
    ensures var o := Settled(rules, block, pool, msg, x);
            match o.result
            case Done(used, refunded, err, ret) =>
              && used + refunded == msg.gasLimit - x.gas
              && FairShare(rules, used, refunded, x.world.refund)
              && err == x.err && ret == x.ret
              && o.pool == pool + (msg.gasLimit - used)
              && Total(o.world)
                 == Total(x.world) + msg.gasLimit * msg.gasPrice - used * BurnPerGas(rules, block, msg)
            case Panicked =>
              && o.pool == pool
              && ((msg.gasLimit == 0 && Overflows256(msg.gasPrice)) || pool + msg.gasLimit > MAX_UINT64)
            case Rejected(_) => false
  {
    RefundIsCapped(msg.gasLimit, x.gas, Quotient(rules), x.world.refund);
    var remaining := x.gas + Refund(msg.gasLimit, x.gas, Quotient(rules), x.world.refund);
    SettledFields(rules, block, pool, msg, x, remaining);
    if msg.gasPrice >= U256 {
      if msg.gasLimit > 0 { MulMono(msg.gasPrice, 1, msg.gasLimit); }
    } else {
      CreditsDoNotWrap(rules, block, x.world, msg, remaining);
    }
  }

  /** Ether that leaves circulation when `result` is the result of the message in the world `w`. */
  function Loss(rules: Rules, block: Block, w: World, msg: Message, result: TxResult): int {
    match result
    case Done(used, _, _, _) => used * BurnPerGas(rules, block, msg) + BlobFee(rules, block, msg)
    case Rejected(_) => if Admission(rules, block, w, msg).Some? then 0 else Charge(rules, block, msg)
    case Panicked => 0
  }

  /** A message whose refund would panic: at a price past a word it can buy no gas, so that it runs only
      if its access list wraps the intrinsic gas to nothing. */
  predicate OverpricedButFree(rules: Rules, msg: Message) {
    Overflows256(msg.gasPrice) && msg.gasLimit == 0 && IntrinsicOf(rules, msg) == Some(0)
  }

  /** The books of one message: the supply falls by exactly the loss, the pool grows by exactly the
      leftover gas, a late rejection keeps the debit but touches nothing else, and only a pool past
      2^64 (or a message overpriced but free) can panic. */
  ghost predicate Booked(rules: Rules, block: Block, w: World, pool: uint64, msg: Message, o: Outcome) {
    && 0 <= Loss(rules, block, w, msg, o.result)
    && match o.result
       case Done(used, refunded, err, ret) =>
         && used <= msg.gasLimit
         && refunded * (if rules.london then 5 else 2) <= used + refunded
         && o.pool == pool + (msg.gasLimit - used)
         && Total(o.world) == Total(w) - Loss(rules, block, w, msg, o.result)
       case Rejected(e) =>
         && o.pool == pool
         && Total(o.world) == Total(w) - Loss(rules, block, w, msg, o.result)
         && o.world == (if Admission(rules, block, w, msg).Some? then w else Debited(rules, block, w, msg))
       case Panicked => o.pool == pool && (OverpricedButFree(rules, msg) || pool + msg.gasLimit > MAX_UINT64)
  }

  /** The tip whose overflow flag is discarded is a plain word whenever it is paid. */
  lemma TipIsUnsigned(rules: Rules, block: Block, w: World, msg: Message)
    requires Sound(rules, block, msg) && Admission(rules, block, w, msg).None? && !FeesSkipped(block, msg)
    ensures 0 <= EffectiveTip(rules, block, msg) && (rules.london ==> EffectiveTip(rules, block, msg) < U256)
  {
    assert FeeError(rules, block, msg).None?;
  }

  lemma AppliedIsSettled(m: Machine, block: Block, depth: nat, w: World, pool: uint64, msg: Message)
    requires Admission(m.rules, block, w, msg).None?
    requires LateError(m.rules, Debited(m.rules, block, w, msg), msg).None?
    ensures var gas := msg.gasLimit - IntrinsicOf(m.rules, msg).value;
            Applied(m, block, depth, w, pool, msg)
            == Settled(m.rules, block, pool, msg, Execution(m, depth, Debited(m.rules, block, w, msg), msg, gas))
  {
  }

  lemma SettledIsBooked(rules: Rules, block: Block, w: World, pool: uint64, msg: Message, x: ExecResult)
    requires Sound(rules, block, msg) && Payable(rules, block, msg) && Admission(rules, block, w, msg).None?
    requires LateError(rules, Debited(rules, block, w, msg), msg).None?
    requires Total(w) < U256 && x.gas <= msg.gasLimit - IntrinsicOf(rules, msg).value
    requires Total(x.world) == Total(w) - Charge(rules, block, msg)
    ensures Booked(rules, block, w, pool, msg, Settled(rules, block, pool, msg, x))
  {
    ChargeIsUnsigned(rules, block, msg);
    if !FeesSkipped(block, msg) { TipIsUnsigned(rules, block, w, msg); }
    Settlement(rules, block, pool, msg, x);
    var o := Settled(rules, block, pool, msg, x);
    if o.result.Done? {
      MulMono(o.result.usedGas, 0, BurnPerGas(rules, block, msg));
    }
  }

  lemma OneExecution(m: Machine, block: Block, depth: nat, w: World, pool: uint64, msg: Message)
    requires FairMachine(m) && Total(w) < U256
    requires Sound(m.rules, block, msg) && Payable(m.rules, block, msg)
    requires Admission(m.rules, block, w, msg).None?
    requires LateError(m.rules, Debited(m.rules, block, w, msg), msg).None?
    ensures Booked(m.rules, block, w, pool, msg, Applied(m, block, depth, w, pool, msg))
  {
    var w1 := Debited(m.rules, block, w, msg);
    AdmittedIsAffordable(m.rules, block, w, msg);
    TotalPut(w, msg.from, Get(w, msg.from));
    var gas := msg.gasLimit - IntrinsicOf(m.rules, msg).value;
    var x := Execution(m, depth, w1, msg, gas);
    ExecutionIsFair(m, depth, w1, msg, gas);
    AppliedIsSettled(m, block, depth, w, pool, msg);
    SettledIsBooked(m.rules, block, w, pool, msg, x);
  }

  lemma OneMessage(m: Machine, block: Block, depth: nat, w: World, pool: uint64, msg: Message)
    requires FairMachine(m) && Total(w) < U256
    requires Sound(m.rules, block, msg) && Payable(m.rules, block, msg)
    ensures Booked(m.rules, block, w, pool, msg, Applied(m, block, depth, w, pool, msg))
  {
    if Admission(m.rules, block, w, msg).None? {
      AdmittedIsAffordable(m.rules, block, w, msg);
      if LateError(m.rules, Debited(m.rules, block, w, msg), msg).None? {
        OneExecution(m, block, depth, w, pool, msg);
      }
    }
  }
}
