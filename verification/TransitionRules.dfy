/** The rules of the state transition in numbers: which checks a message must pass and which error each
    failure is, what it is charged, what its execution is given, and what it is refunded. */
module TransitionRules {
  import opened Words
  import opened World
  import opened Intrinsic
  import opened Evm
  import opened CreationProperties
  import opened Transition
  import opened TransitionProperties

  /** A message carries every field of its transaction, and as its price the tip on top of the base fee
      as far as the fee cap allows. */
  lemma MessageCarries(tx: Transaction, baseFee: Option<nat>)
    ensures var msg := TransactionToMessage(tx, baseFee);
            && msg.to == tx.to && msg.from == tx.from && msg.nonce == tx.nonce && msg.value == tx.value
            && msg.gasLimit == tx.gas && msg.gasFeeCap == tx.gasFeeCap && msg.gasTipCap == tx.gasTipCap
            && msg.data == tx.data && msg.accessList == tx.accessList && msg.blobHashes == tx.blobHashes
            && (tx.blobGasFeeCap.Some? ==> msg.blobGasFeeCap == tx.blobGasFeeCap.value)
            && (tx.blobGasFeeCap.None? ==> msg.blobGasFeeCap == 0)
            && !msg.skipAccountChecks
            && (baseFee.None? ==> msg.gasPrice == tx.gasPrice)
            && (baseFee.Some? ==>
                && msg.gasPrice <= tx.gasTipCap + baseFee.value && msg.gasPrice <= tx.gasFeeCap
                && msg.gasPrice in {tx.gasTipCap + baseFee.value, tx.gasFeeCap})
  {
  }

  /** A blob takes 131072 gas. */
  function BlobGas(msg: Message): nat {
    (if msg.blobHashes.Some? then |msg.blobHashes.value| * 131072 else 0) % 0x1_0000_0000_0000_0000
  }

  lemma BlobGasIs(msg: Message)
    ensures BlobGasUsed(msg) == BlobGas(msg)
  {
  }

  predicate NonceFits(w: World, msg: Message) {
    Get(w, msg.from).nonce == msg.nonce && msg.nonce != 0xFFFF_FFFF_FFFF_FFFF
  }

  predicate AccountFits(w: World, msg: Message) {
    msg.skipAccountChecks || (NonceFits(w, msg) && Get(w, msg.from).code == [])
  }

  predicate FeesMatter(rules: Rules, block: Block, msg: Message) {
    rules.london && (!block.noBaseFee || msg.gasFeeCap != 0 || msg.gasTipCap != 0)
  }

  predicate IsWord(x: int) { -U256 < x < U256 }

  predicate FeesFit(rules: Rules, block: Block, msg: Message) {
    FeesMatter(rules, block, msg) ==>
      && IsWord(msg.gasFeeCap) && IsWord(msg.gasTipCap)
      && msg.gasTipCap <= msg.gasFeeCap && block.baseFee <= msg.gasFeeCap
  }

  predicate HashesFit(msg: Message) {
    msg.blobHashes.Some? ==>
      && msg.to.Some? && msg.blobHashes.value != []
      && forall i :: 0 <= i < |msg.blobHashes.value| ==> msg.blobHashes.value[i].version == 1
  }

  predicate BlobFeeFits(rules: Rules, block: Block, msg: Message) {
    var matters := rules.cancun && BlobGas(msg) > 0 && (!block.noBaseFee || msg.blobGasFeeCap != 0);
    matters ==> block.blobBaseFee <= msg.blobGasFeeCap
  }

  function Needed(rules: Rules, msg: Message): int {
    msg.value + msg.gasFeeCap * msg.gasLimit + (if rules.cancun then msg.blobGasFeeCap * BlobGas(msg) else 0)
  }

  /** The balance covers what is needed, read as a word. */
  predicate FundsFit(rules: Rules, w: World, msg: Message) {
    var need := Needed(rules, msg);
    IsWord(need) && (if need >= 0 then need else need + U256) <= Get(w, msg.from).balance
  }

  lemma AccountErrorIs(w: World, msg: Message)
    ensures var e, nonce := AccountError(w, msg), Get(w, msg.from).nonce;
            && (e == Some(ErrNonceTooHigh) <==> !msg.skipAccountChecks && nonce < msg.nonce)
            && (e == Some(ErrNonceTooLow) <==> !msg.skipAccountChecks && nonce > msg.nonce)
            && (e == Some(ErrNonceMax) <==>
                !msg.skipAccountChecks && nonce == msg.nonce == 0xFFFF_FFFF_FFFF_FFFF)
            && (e == Some(ErrSenderNoEOA) <==>
                !msg.skipAccountChecks && NonceFits(w, msg) && Get(w, msg.from).code != [])
            && (e == None <==> AccountFits(w, msg))
  {
  }

  lemma FeeErrorIs(rules: Rules, block: Block, msg: Message)
    ensures var e := FeeError(rules, block, msg);
            var capFits, tipFits := IsWord(msg.gasFeeCap), IsWord(msg.gasTipCap);
            var matter := FeesMatter(rules, block, msg);
            && (e == Some(ErrFeeCapVeryHigh) <==> matter && !capFits)
            && (e == Some(ErrTipVeryHigh) <==> matter && capFits && !tipFits)
            && (e == Some(ErrTipAboveFeeCap) <==> matter && capFits && tipFits && msg.gasFeeCap < msg.gasTipCap)
            && (e == Some(ErrFeeCapTooLow) <==>
                matter && capFits && tipFits && msg.gasTipCap <= msg.gasFeeCap && msg.gasFeeCap < block.baseFee)
            && (e == None <==> FeesFit(rules, block, msg))
  {
  }

  /** The first hash of another version is the one reported. */
  lemma {:induction false} BadHashIs(hashes: seq<Hash>)
    ensures FirstBadHash(hashes) == None <==> forall i :: 0 <= i < |hashes| ==> hashes[i].version == 1
    ensures FirstBadHash(hashes).Some? ==>
      exists i :: && 0 <= i < |hashes| && hashes[i].version != 1 && FirstBadHash(hashes) == Some(ErrBlobHashVersion(i))
                  && forall j :: 0 <= j < i ==> hashes[j].version == 1
  {
    if hashes == [] {
    } else {
      var n := |hashes| - 1;
      BadHashIs(hashes[..n]);
      assert forall i :: 0 <= i < n ==> hashes[..n][i] == hashes[i];
    }
  }

  lemma BlobErrorIs(rules: Rules, block: Block, msg: Message)
    ensures var e := BlobError(rules, block, msg);
            && (e == Some(ErrBlobTxCreate) <==> msg.blobHashes.Some? && msg.to.None?)
            && (e == Some(ErrMissingBlobHashes) <==> msg.to.Some? && msg.blobHashes == Some([]))
            && (e.Some? && e.value.ErrBlobHashVersion? ==>
                && msg.blobHashes.Some? && msg.to.Some?
                && e.value.index < |msg.blobHashes.value|
                && msg.blobHashes.value[e.value.index].version != 1
                && forall j :: 0 <= j < e.value.index ==> msg.blobHashes.value[j].version == 1)
            && (e == Some(ErrBlobFeeCapTooLow) <==> HashesFit(msg) && !BlobFeeFits(rules, block, msg))
            && (e == None <==> HashesFit(msg) && BlobFeeFits(rules, block, msg))
  {
    if msg.blobHashes.Some? { BadHashIs(msg.blobHashes.value); }
  }

  lemma FundsErrorIs(rules: Rules, w: World, msg: Message)
    ensures FundsError(rules, w, msg) == if FundsFit(rules, w, msg) then None else Some(ErrInsufficientFunds)
  {
    BlobGasIs(msg);
    assert Required(rules, msg) == Needed(rules, msg);
  }

  /** A message is admitted if and only if account, fees, blobs and funds are in order, and otherwise
      rejected for the first of these that is not. */
  lemma AdmittedIff(rules: Rules, block: Block, w: World, msg: Message)
    ensures var e := Admission(rules, block, w, msg);
            var blobsFit := HashesFit(msg) && BlobFeeFits(rules, block, msg);
            var allElseFits := AccountFits(w, msg) && FeesFit(rules, block, msg) && blobsFit;
            && (e == None <==> allElseFits && FundsFit(rules, w, msg))
            && (!AccountFits(w, msg) ==> e == AccountError(w, msg))
            && (AccountFits(w, msg) && !FeesFit(rules, block, msg) ==> e == FeeError(rules, block, msg))
            && (AccountFits(w, msg) && FeesFit(rules, block, msg) && !blobsFit ==> e == BlobError(rules, block, msg))
            && (allElseFits && !FundsFit(rules, w, msg) ==> e == Some(ErrInsufficientFunds))
  {
    AccountErrorIs(w, msg);
    FeeErrorIs(rules, block, msg);
    BlobErrorIs(rules, block, msg);
    FundsErrorIs(rules, w, msg);
  }

  lemma ChargeIsPrice(rules: Rules, block: Block, msg: Message)
    ensures Charge(rules, block, msg)
         == msg.gasPrice * msg.gasLimit + (if rules.cancun then block.blobBaseFee * BlobGas(msg) else 0)
  {
    BlobGasIs(msg);
  }

  lemma TakenFrom(w: World, from: Address, amount: int, a: Address)
    requires 0 <= amount <= Balance(w, from)
    ensures Get(SubBalance(w, from, Wrap256(amount)), a)
         == if a != from then Get(w, a) else Get(w, a).(balance := Balance(w, a) - amount)
  {
  }

  /** Once admitted a payable message is charged its gas limit at its price and its blob gas at the blob
      base fee, from the sender alone. */
  lemma ChargeIs(rules: Rules, block: Block, w: World, msg: Message, a: Address)
    requires Sound(rules, block, msg) && Payable(rules, block, msg) && Admission(rules, block, w, msg).None?
    ensures var after := Debited(rules, block, w, msg);
            && Get(after, a) == Get(w, a).(balance := Get(after, a).balance)
            && Get(after, a).balance
               == Get(w, a).balance
                  - (if a != msg.from then 0
                     else msg.gasPrice * msg.gasLimit + if rules.cancun then block.blobBaseFee * BlobGas(msg) else 0)
            && after.refund == w.refund
  {
    ChargeIsPrice(rules, block, msg);
    AdmittedIsAffordable(rules, block, w, msg);
    ChargeIsUnsigned(rules, block, msg);
    TakenFrom(w, msg.from, Charge(rules, block, msg), a);
  }

  /** The errors after the purchase of gas, in order. */
  lemma LateErrorIs(rules: Rules, w: World, msg: Message)
    ensures var e, gas := LateError(rules, w, msg), IntrinsicOf(rules, msg);
            var covered := IsWord(msg.value)
              && (if msg.value >= 0 then msg.value else msg.value + U256) <= Get(w, msg.from).balance;
            && (e == Some(TxError.ErrGasUintOverflow) <==> gas.None?)
            && (e == Some(ErrIntrinsicGas) <==> gas.Some? && msg.gasLimit < gas.value)
            && (e == Some(ErrInsufficientFundsForTransfer) <==> gas.Some? && gas.value <= msg.gasLimit && !covered)
            && (e == Some(ErrMaxInitCodeSizeExceeded) <==>
                && gas.Some? && gas.value <= msg.gasLimit && covered
                && rules.shanghai && msg.to.None? && |msg.data| > 49152)
            && (e == None ==> gas.Some? && gas.value <= msg.gasLimit && covered)
  {
  }

  /** The intrinsic gas of a message goes by its own data, access list and target, and by the rules of
      Homestead, Istanbul and Shanghai. */
  lemma IntrinsicOfIs(rules: Rules, msg: Message)
    ensures var gas := IntrinsicOf(rules, msg.(data := [7], accessList := None));
            gas == Some(if msg.to.Some? then (if rules.istanbul then 21016 else 21068)
                        else (if rules.homestead then 53000 else 21000) + (if rules.istanbul then 16 else 68)
                             + (if rules.shanghai then 2 else 0))
    ensures IntrinsicOf(rules, msg)
         == IntrinsicCost(msg.data, msg.accessList, msg.to == None, rules.homestead, rules.istanbul, rules.shanghai)
  {
    OneMoreByte([], 7, msg.to.None?, rules.homestead, rules.istanbul, rules.shanghai);
    assert [] + [7] == [7];
  }

  /** A message call is made with the sender's nonce raised and the message's own sender, target, data,
      value and remaining gas: a call that hands its frame back shows it. */
  lemma CallIsAsked(m: Machine, depth: nat, w: World, msg: Message, gas: uint64)
    requires msg.to.Some? && 0 <= msg.value < U256 && Nonce(w, msg.from) + 1 < U64
    requires forall w, f {:trigger m.call(w, f)} ::
      m.call(w, f) == ExecResult(w, f.code, f.gas, Some(OtherError(f.caller + f.self + f.value)))
    ensures var x := Execution(m, depth, w, msg, gas);
            && x.ret == msg.data && x.gas == gas
            && x.err == Some(OtherError(msg.from + msg.to.value + msg.value))
            && Get(x.world, msg.from) == Get(w, msg.from).(nonce := Nonce(w, msg.from) + 1)
            && forall a :: a != msg.from ==> Get(x.world, a) == Get(w, a)
  {
  }

  /** A creation runs the message's data at the address of the sender and its nonce before it is raised. */
  lemma CreationIsAsked(m: Machine, depth: nat, w: World, msg: Message, gas: uint64)
    requires msg.to.None? && 0 <= msg.value < U256
    ensures var address := m.createAddress(msg.from, Get(w, msg.from).nonce);
            Execution(m, depth, w, msg, gas) == Creation(m, depth, w, msg.from, msg.data, gas, msg.value, address)
  {
  }

  lemma SettledRefunds(rules: Rules, block: Block, w: World, pool: uint64, msg: Message, x: ExecResult)
    requires Sound(rules, block, msg) && Payable(rules, block, msg) && Admission(rules, block, w, msg).None?
    requires Total(w) < U256 && x.gas <= msg.gasLimit && Total(x.world) == Total(w) - Charge(rules, block, msg)
    ensures var o := Settled(rules, block, pool, msg, x);
            o.result.Done? ==>
              var used, refunded := o.result.usedGas, o.result.refundedGas;
              && used + refunded == msg.gasLimit - x.gas && FairShare(rules, used, refunded, x.world.refund)
              && o.result.vmErr == x.err && o.result.ret == x.ret
              && o.pool == pool + msg.gasLimit - used
  {
    ChargeIsUnsigned(rules, block, msg);
    if !FeesSkipped(block, msg) { TipIsUnsigned(rules, block, w, msg); }
    Settlement(rules, block, pool, msg, x);
  }

  lemma DoneIsExecuted(m: Machine, block: Block, depth: nat, w: World, pool: uint64, msg: Message)
    requires Applied(m, block, depth, w, pool, msg).result.Done?
    ensures Admission(m.rules, block, w, msg).None?
    ensures LateError(m.rules, Debited(m.rules, block, w, msg), msg).None?
    ensures IntrinsicOf(m.rules, msg).Some? && IntrinsicOf(m.rules, msg).value <= msg.gasLimit
  {
  }

  /** Of every finished message: what is refunded and used adds up to what the execution took, the refund
      is the counter or the full share, and what the execution returned is handed on. */
  lemma RefundIs(m: Machine, block: Block, depth: nat, w: World, pool: uint64, msg: Message)
    requires FairMachine(m) && Total(w) < U256
    requires Sound(m.rules, block, msg) && Payable(m.rules, block, msg)
    ensures var o := Applied(m, block, depth, w, pool, msg);
            o.result.Done? ==>
              IntrinsicOf(m.rules, msg).Some? && IntrinsicOf(m.rules, msg).value <= msg.gasLimit &&
              var gas := msg.gasLimit - IntrinsicOf(m.rules, msg).value;
              var x := Execution(m, depth, Debited(m.rules, block, w, msg), msg, gas);
              var used, refunded := o.result.usedGas, o.result.refundedGas;
              && used + refunded == msg.gasLimit - x.gas
              && FairShare(m.rules, used, refunded, x.world.refund)
              && (if m.rules.london then refunded * 5 <= used + refunded else refunded * 2 <= used + refunded)
              && o.result.vmErr == x.err && o.result.ret == x.ret
              && o.pool == pool + msg.gasLimit - used
  {
    if Applied(m, block, depth, w, pool, msg).result.Done? {
      DoneIsExecuted(m, block, depth, w, pool, msg);
      var w1, gas := Debited(m.rules, block, w, msg), msg.gasLimit - IntrinsicOf(m.rules, msg).value;
      AdmittedIsAffordable(m.rules, block, w, msg);
      TotalPut(w, msg.from, Get(w, msg.from));
      ExecutionIsFair(m, depth, w1, msg, gas);
      AppliedIsSettled(m, block, depth, w, pool, msg);
      SettledRefunds(m.rules, block, w, pool, msg, Execution(m, depth, w1, msg, gas));
    }
  }

  /** What the coinbase gets for a unit of gas: under London rules the tip cap, or what the fee cap leaves
      above the base fee if that is less; before, the whole price; nothing where fees are off and zero. */
  lemma TipIs(rules: Rules, block: Block, msg: Message)
    ensures var tip := EffectiveTip(rules, block, msg);
            && (rules.london ==>
                && tip <= msg.gasTipCap && tip <= msg.gasFeeCap - block.baseFee
                && tip in {msg.gasTipCap, msg.gasFeeCap - block.baseFee})
            && (!rules.london ==> tip == msg.gasPrice)
    ensures FeesSkipped(block, msg) <==> block.noBaseFee && msg.gasFeeCap == 0 && msg.gasTipCap == 0
  {
  }
}
