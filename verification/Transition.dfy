/** Applying one message to the world: the checks, the purchase of gas, the execution, the refund
    and the payment of the coinbase, in the word arithmetic of the sources. Each method of the
    state transition is tied to a function of the world before. */
module Transition {
  import opened Words
  import opened World
  import opened Intrinsic
  import opened Evm

  const MAX_INIT_CODE_SIZE := 49152
  const BLOB_GAS_PER_BLOB := 131072
  const REFUND_QUOTIENT := 2
  const REFUND_QUOTIENT_EIP3529 := 5
  const VERSIONED_HASH_KZG := 1

  datatype Hash = Hash(version: byte, rest: nat)

  /** The accessors of a signed transaction; the fields of its concrete types are unsigned. */
  datatype Transaction = Transaction(from: Address, nonce: uint64, gas: uint64, gasPrice: nat, gasTipCap: nat,
                                     gasFeeCap: nat, to: Option<Address>, value: nat, data: seq<byte>,
                                     accessList: Option<seq<AccessTuple>>, blobHashes: Option<seq<Hash>>,
                                     blobGasFeeCap: Option<nat>)

  /** Message fields that are big integers in the sources are unbounded and may be negative. */
  datatype Message = Message(to: Option<Address>, from: Address, nonce: uint64, value: int, gasLimit: uint64,
                             gasPrice: int, gasFeeCap: int, gasTipCap: int, data: seq<byte>,
                             accessList: Option<seq<AccessTuple>>, blobGasFeeCap: int,
                             blobHashes: Option<seq<Hash>>, skipAccountChecks: bool)

  datatype Block = Block(coinbase: Address, baseFee: nat, blobBaseFee: nat, noBaseFee: bool)

  datatype TxError =
    | ErrNonceTooHigh | ErrNonceTooLow | ErrNonceMax | ErrSenderNoEOA
    | ErrFeeCapVeryHigh | ErrTipVeryHigh | ErrTipAboveFeeCap | ErrFeeCapTooLow
    | ErrBlobTxCreate | ErrMissingBlobHashes | ErrBlobHashVersion(index: nat) | ErrBlobFeeCapTooLow
    | ErrInsufficientFunds
    | ErrGasUintOverflow | ErrIntrinsicGas | ErrInsufficientFundsForTransfer | ErrMaxInitCodeSizeExceeded

  datatype TxResult =
    | Done(usedGas: uint64, refundedGas: uint64, vmErr: Option<VmError>, ret: seq<byte>)
    | Rejected(error: TxError)
    | Panicked

  datatype Outcome = Outcome(world: World, pool: uint64, result: TxResult)

  /** `baseFee` is absent when the caller knows no block base fee. */
  function TransactionToMessage(tx: Transaction, baseFee: Option<nat>): Message {
    Message(tx.to, tx.from, tx.nonce, tx.value, tx.gas,
            if baseFee.Some? then Min(tx.gasTipCap + baseFee.value, tx.gasFeeCap) else tx.gasPrice,
            tx.gasFeeCap, tx.gasTipCap, tx.data, tx.accessList,
            if tx.blobGasFeeCap.Some? then tx.blobGasFeeCap.value else 0, tx.blobHashes, false)
  }

  /** The price a transaction type computes for itself, from the fee cap down. */
  function EffectiveGasPrice(tx: Transaction, baseFee: Option<nat>): int {
    match baseFee
    case None => tx.gasFeeCap
    case Some(base) =>
      var tip := tx.gasFeeCap - base;
      (if tip > tx.gasTipCap then tx.gasTipCap else tip) + base
  }

  function BlobGasUsed(msg: Message): uint64 {
    Wrap64((if msg.blobHashes.Some? then |msg.blobHashes.value| else 0) * BLOB_GAS_PER_BLOB)
  }

  /** The guard under which the fee caps of the message are not checked and no tip is paid. */
  predicate FeesSkipped(block: Block, msg: Message) {
    block.noBaseFee && msg.gasFeeCap == 0 && msg.gasTipCap == 0
  }

  predicate BlobFeeSkipped(block: Block, msg: Message) { block.noBaseFee && msg.blobGasFeeCap == 0 }

  function AccountError(w: World, msg: Message): Option<TxError> {
    if msg.skipAccountChecks then None
    else if Nonce(w, msg.from) < msg.nonce then Some(ErrNonceTooHigh)
    else if Nonce(w, msg.from) > msg.nonce then Some(ErrNonceTooLow)
    else if Nonce(w, msg.from) == MAX_UINT64 then Some(ErrNonceMax)
    else if Get(w, msg.from).code != [] then Some(ErrSenderNoEOA)
    else None
  }

  function FeeError(rules: Rules, block: Block, msg: Message): Option<TxError> {
    if !rules.london || FeesSkipped(block, msg) then None
    else if Overflows256(msg.gasFeeCap) then Some(ErrFeeCapVeryHigh)
    else if Overflows256(msg.gasTipCap) then Some(ErrTipVeryHigh)
    else if msg.gasFeeCap < msg.gasTipCap then Some(ErrTipAboveFeeCap)
    else if msg.gasFeeCap < block.baseFee then Some(ErrFeeCapTooLow)
    else None
  }

  function FirstBadHash(hashes: seq<Hash>): Option<TxError> {
    if hashes == [] then None
    else
      var earlier := FirstBadHash(hashes[..|hashes| - 1]);
      if earlier.Some? then earlier
      else if hashes[|hashes| - 1].version != VERSIONED_HASH_KZG then Some(ErrBlobHashVersion(|hashes| - 1))
      else None
  }

  function BlobError(rules: Rules, block: Block, msg: Message): Option<TxError> {
    if msg.blobHashes.Some? && msg.to.None? then Some(ErrBlobTxCreate)
    else if msg.blobHashes == Some([]) then Some(ErrMissingBlobHashes)
    else if msg.blobHashes.Some? && FirstBadHash(msg.blobHashes.value).Some? then FirstBadHash(msg.blobHashes.value)
    else if rules.cancun && BlobGasUsed(msg) > 0 && !BlobFeeSkipped(block, msg)
            && msg.blobGasFeeCap < block.blobBaseFee then Some(ErrBlobFeeCapTooLow)
    else None
  }

  /** What the sender must own, and what it is charged up front. */
  function Required(rules: Rules, msg: Message): int {
    msg.gasLimit * msg.gasFeeCap + msg.value + (if rules.cancun then BlobGasUsed(msg) * msg.blobGasFeeCap else 0)
  }

  function BlobFee(rules: Rules, block: Block, msg: Message): nat {
    if rules.cancun then BlobGasUsed(msg) * block.blobBaseFee else 0
  }

  function Charge(rules: Rules, block: Block, msg: Message): int {
    msg.gasLimit * msg.gasPrice + BlobFee(rules, block, msg)
  }

  function FundsError(rules: Rules, w: World, msg: Message): Option<TxError> {
    if Overflows256(Required(rules, msg)) || Balance(w, msg.from) < Wrap256(Required(rules, msg))
    then Some(ErrInsufficientFunds) else None
  }

  function OrElse(a: Option<TxError>, b: Option<TxError>): Option<TxError> { if a.Some? then a else b }

  /** The first error among the checks that precede any change. */
  function Admission(rules: Rules, block: Block, w: World, msg: Message): Option<TxError> {
    OrElse(AccountError(w, msg), OrElse(FeeError(rules, block, msg),
           OrElse(BlobError(rules, block, msg), FundsError(rules, w, msg))))
  }

  function Debited(rules: Rules, block: Block, w: World, msg: Message): World {
    SubBalance(w, msg.from, Wrap256(Charge(rules, block, msg)))
  }

  function IntrinsicOf(rules: Rules, msg: Message): Option<uint64> {
    IntrinsicCost(msg.data, msg.accessList, msg.to.None?, rules.homestead, rules.istanbul, rules.shanghai)
  }

  /** Errors raised after the purchase of gas. */
  function LateError(rules: Rules, w: World, msg: Message): Option<TxError> {
    var gas := IntrinsicOf(rules, msg);
    if gas.None? then Some(TxError.ErrGasUintOverflow)
    else if msg.gasLimit < gas.value then Some(ErrIntrinsicGas)
    else if Overflows256(msg.value) then Some(ErrInsufficientFundsForTransfer)
    else if Wrap256(msg.value) != 0 && !CanTransfer(w, msg.from, Wrap256(msg.value))
    then Some(ErrInsufficientFundsForTransfer)
    else if rules.shanghai && msg.to.None? && |msg.data| > MAX_INIT_CODE_SIZE then Some(ErrMaxInitCodeSizeExceeded)
    else None
  }

  function Execution(m: Machine, depth: nat, w: World, msg: Message, gas: uint64): ExecResult {
    var value := Wrap256(msg.value);
    match msg.to
    case None => Creation(m, depth, w, msg.from, msg.data, gas, value, NewAddress(m, w, msg.from))
    case Some(to) =>
      m.call(SetNonce(w, msg.from, Wrap64(Nonce(w, msg.from) + 1)), Frame(msg.from, to, msg.data, gas, value))
  }

  function Quotient(rules: Rules): nat { if rules.london then REFUND_QUOTIENT_EIP3529 else REFUND_QUOTIENT }

  /** The capped refund for an execution that left `gas` of `limit`. */
  function Refund(limit: uint64, gas: uint64, quotient: nat, counter: uint64): uint64
    requires quotient > 0
  {
    Min(Wrap64(limit - gas) / quotient, counter)
  }

  function EffectiveTip(rules: Rules, block: Block, msg: Message): int {
    if rules.london then Min(msg.gasTipCap, msg.gasFeeCap - block.baseFee) else msg.gasPrice
  }

  function Refunded(w: World, msg: Message, remaining: uint64): World {
    AddBalance(w, msg.from, Wrap256(remaining * Wrap256(msg.gasPrice)))
  }

  function Tipped(rules: Rules, block: Block, w: World, msg: Message, used: uint64): World {
    if FeesSkipped(block, msg) then w
    else AddBalance(w, block.coinbase, Wrap256(used * Wrap256(EffectiveTip(rules, block, msg))))
  }

  function Settled(rules: Rules, block: Block, pool: uint64, msg: Message, x: ExecResult): Outcome {
    var refund := Refund(msg.gasLimit, x.gas, Quotient(rules), x.world.refund);
    var remaining := Wrap64(x.gas + refund);
    if Overflows256(msg.gasPrice) then Outcome(x.world, pool, Panicked)
    else
      var w1 := Refunded(x.world, msg, remaining);
      if pool > MAX_UINT64 - remaining then Outcome(w1, pool, Panicked)
      else
        var used := Wrap64(msg.gasLimit - remaining);
        Outcome(Tipped(rules, block, w1, msg, used), pool + remaining, Done(used, refund, x.err, x.ret))
  }

  /** The outcome of applying a message. */
  function Applied(m: Machine, block: Block, depth: nat, w: World, pool: uint64, msg: Message): Outcome {
    var early := Admission(m.rules, block, w, msg);
    if early.Some? then Outcome(w, pool, Rejected(early.value))
    else
      var w1 := Debited(m.rules, block, w, msg);
      var late := LateError(m.rules, w1, msg);
      if late.Some? then Outcome(w1, pool, Rejected(late.value))
      else
        var gas := msg.gasLimit - IntrinsicOf(m.rules, msg).value;
        Settled(m.rules, block, pool, msg, Execution(m, depth, w1, msg, gas))
  }

  class GasPool {
    var gas: uint64

    constructor (gas: uint64)
      ensures this.gas == gas
    {
      this.gas := gas;
    }

    /** The pool is unlimited: nothing is deducted and no amount is refused. */
    method SubGas(amount: uint64) returns (ok: bool)
      ensures ok
    {
      ok := true;
    }

    /** `ok` is false where the sources panic. */
    method AddGas(amount: uint64) returns (ok: bool)
      modifies this
      ensures ok <==> old(gas) + amount <= MAX_UINT64
      ensures gas == if ok then old(gas) + amount else old(gas)
    {
      if gas > MAX_UINT64 - amount {
        return false;
      }
      gas := gas + amount;
      ok := true;
    }
  }

  /** A bad hash found in a prefix is the one reported for the whole list. */
  lemma BadHashStays(hashes: seq<Hash>, i: nat)
    requires i <= |hashes| && FirstBadHash(hashes[..i]).Some?
    ensures FirstBadHash(hashes) == FirstBadHash(hashes[..i])
    decreases |hashes| - i
  {
    if i < |hashes| {
      assert hashes[..i + 1][..i] == hashes[..i];
      BadHashStays(hashes, i + 1);
    } else {
      assert hashes[..i] == hashes;
    }
  }

  class StateTransition {
    const gp: GasPool
    const msg: Message
    const evm: EVM
    const block: Block
    var gasRemaining: uint64
    var initialGas: uint64

    constructor (evm: EVM, msg: Message, gp: GasPool, block: Block)
      ensures this.evm == evm && this.msg == msg && this.gp == gp && this.block == block
      ensures gasRemaining == 0 && initialGas == 0
    {
      this.evm, this.msg, this.gp, this.block := evm, msg, gp, block;
      gasRemaining, initialGas := 0, 0;
    }

    function GasUsed(): uint64
      reads this
    {
      Wrap64(initialGas - gasRemaining)
    }

    /** Clauses 4 to 6: the intrinsic gas, the value to transfer, and the size of the init code. */
    method ChargeIntrinsic() returns (err: Option<TxError>)
      requires |msg.data| < U64 && gasRemaining == msg.gasLimit
      modifies this`gasRemaining
      ensures err == LateError(evm.machine.rules, evm.world, msg)
      ensures err.None? ==> gasRemaining == msg.gasLimit - IntrinsicOf(evm.machine.rules, msg).value
    {
      var rules := evm.machine.rules;
      var create := msg.to.None?;
      var gas := IntrinsicGas(msg.data, msg.accessList, create, rules.homestead, rules.istanbul, rules.shanghai);
      if gas.None? {
        return Some(TxError.ErrGasUintOverflow);
      }
      if gasRemaining < gas.value {
        return Some(ErrIntrinsicGas);
      }
      gasRemaining := gasRemaining - gas.value;

      var value := Wrap256(msg.value);
      if Overflows256(msg.value) || (value != 0 && !CanTransfer(evm.world, msg.from, value)) {
        return Some(ErrInsufficientFundsForTransfer);
      }
      if rules.shanghai && create && |msg.data| > MAX_INIT_CODE_SIZE {
        return Some(ErrMaxInitCodeSizeExceeded);
      }
      err := None;
    }

    method Execute(value: uint256) returns (ret: seq<byte>, vmErr: Option<VmError>)
      requires value == Wrap256(msg.value)
      modifies this`gasRemaining, evm`world
      ensures ExecResult(evm.world, ret, gasRemaining, vmErr)
           == Execution(evm.machine, evm.depth, old(evm.world), msg, old(gasRemaining))
    {
      if msg.to.None? {
        var address;
        ret, address, gasRemaining, vmErr := evm.Create(msg.from, msg.data, gasRemaining, value);
      } else {
        evm.world := SetNonce(evm.world, msg.from, Wrap64(Nonce(evm.world, msg.from) + 1));
        var x := evm.machine.call(evm.world, Frame(msg.from, msg.to.value, msg.data, gasRemaining, value));
        evm.world, ret, gasRemaining, vmErr := x.world, x.ret, x.gas, x.err;
      }
    }

    method RefundGas(quotient: nat) returns (ok: bool, refund: uint64)
      requires quotient > 0
      modifies this`gasRemaining, evm`world, gp
      ensures refund == Refund(initialGas, old(gasRemaining), quotient, old(evm.world).refund)
      ensures gasRemaining == Wrap64(old(gasRemaining) + refund)
      ensures evm.world == if Overflows256(msg.gasPrice) then old(evm.world)
                           else Refunded(old(evm.world), msg, gasRemaining)
      ensures ok <==> !Overflows256(msg.gasPrice) && old(gp.gas) + gasRemaining <= MAX_UINT64
      ensures gp.gas == if ok then old(gp.gas) + gasRemaining else old(gp.gas)
    {
      refund := GasUsed() / quotient;
      if refund > evm.world.refund {
        refund := evm.world.refund;
      }
      gasRemaining := Wrap64(gasRemaining + refund);
      if Overflows256(msg.gasPrice) {
        return false, refund;
      }
      var remaining := Wrap256(gasRemaining * Wrap256(msg.gasPrice));
      evm.world := AddBalance(evm.world, msg.from, remaining);
      ok := gp.AddGas(gasRemaining);
    }

    method Settle(ret: seq<byte>, vmErr: Option<VmError>, ghost x: ExecResult) returns (result: TxResult)
      requires initialGas == msg.gasLimit && x == ExecResult(evm.world, ret, gasRemaining, vmErr)
      modifies this`gasRemaining, evm`world, gp
      ensures Outcome(evm.world, gp.gas, result)
           == Settled(evm.machine.rules, block, old(gp.gas), msg, x)
    {
      var london := evm.machine.rules.london;
      var ok, gasRefund := RefundGas(if london then REFUND_QUOTIENT_EIP3529 else REFUND_QUOTIENT);
      if !ok {
        return Panicked;
      }
      var effectiveTip := msg.gasPrice;
      if london {
        effectiveTip := Min(msg.gasTipCap, msg.gasFeeCap - block.baseFee);
      }
      if block.noBaseFee && msg.gasFeeCap == 0 && msg.gasTipCap == 0 {
      } else {
        var fee := Wrap256(GasUsed() * Wrap256(effectiveTip));
        evm.world := AddBalance(evm.world, block.coinbase, fee);
      }
      result := Done(GasUsed(), gasRefund, vmErr, ret);
    }

    method CheckFees() returns (err: Option<TxError>)
      ensures err == FeeError(evm.machine.rules, block, msg)
    {
      if evm.machine.rules.london {
        var skipCheck := block.noBaseFee && msg.gasFeeCap == 0 && msg.gasTipCap == 0;
        if !skipCheck {
          if Overflows256(msg.gasFeeCap) {
            return Some(ErrFeeCapVeryHigh);
          }
          if Overflows256(msg.gasTipCap) {
            return Some(ErrTipVeryHigh);
          }
          if msg.gasFeeCap < msg.gasTipCap {
            return Some(ErrTipAboveFeeCap);
          }
          if msg.gasFeeCap < block.baseFee {
            return Some(ErrFeeCapTooLow);
          }
        }
      }
      err := None;
    }

    method CheckBlobs() returns (err: Option<TxError>)
      ensures err == BlobError(evm.machine.rules, block, msg)
    {
      if msg.blobHashes.Some? {
        var hashes := msg.blobHashes.value;
        if msg.to.None? {
          return Some(ErrBlobTxCreate);
        }
        if |hashes| == 0 {
          return Some(ErrMissingBlobHashes);
        }
        for i := 0 to |hashes|
          invariant FirstBadHash(hashes[..i]).None?
        {
          assert hashes[..i + 1][..i] == hashes[..i];
          if hashes[i].version != VERSIONED_HASH_KZG {
            BadHashStays(hashes, i + 1);
            return Some(ErrBlobHashVersion(i));
          }
        }
        assert hashes[..|hashes|] == hashes;
      }
      if evm.machine.rules.cancun && BlobGasUsed(msg) > 0 && !BlobFeeSkipped(block, msg)
         && msg.blobGasFeeCap < block.blobBaseFee {
        return Some(ErrBlobFeeCapTooLow);
      }
      err := None;
    }

    method BuyGas() returns (err: Option<TxError>)
      modifies this, evm`world
      ensures err == FundsError(evm.machine.rules, old(evm.world), msg)
      ensures err.Some? ==> evm.world == old(evm.world)
      ensures err.None? ==> evm.world == Debited(evm.machine.rules, block, old(evm.world), msg)
      ensures err.None? ==> gasRemaining == msg.gasLimit && initialGas == msg.gasLimit
    {
      var mgval := msg.gasLimit * msg.gasPrice;
      var balanceCheck := msg.gasLimit * msg.gasFeeCap;
      balanceCheck := balanceCheck + msg.value;
      if evm.machine.rules.cancun {
        var blobGas := BlobGasUsed(msg);
        if blobGas > 0 {
          balanceCheck := balanceCheck + blobGas * msg.blobGasFeeCap;
          mgval := mgval + blobGas * block.blobBaseFee;
        }
      }
      assert balanceCheck == Required(evm.machine.rules, msg) && mgval == Charge(evm.machine.rules, block, msg);
      if Overflows256(balanceCheck) || Balance(evm.world, msg.from) < Wrap256(balanceCheck) {
        return Some(ErrInsufficientFunds);
      }
      var ok := gp.SubGas(msg.gasLimit);
      gasRemaining := msg.gasLimit;
      initialGas := msg.gasLimit;
      evm.world := SubBalance(evm.world, msg.from, Wrap256(mgval));
      err := None;
    }

    method PreCheck() returns (err: Option<TxError>)
      modifies this, evm`world
      ensures err == Admission(evm.machine.rules, block, old(evm.world), msg)
      ensures err.Some? ==> evm.world == old(evm.world)
      ensures err.None? ==> evm.world == Debited(evm.machine.rules, block, old(evm.world), msg)
      ensures err.None? ==> gasRemaining == msg.gasLimit && initialGas == msg.gasLimit
    {
      if !msg.skipAccountChecks {
        var stNonce: int := Nonce(evm.world, msg.from);
        if stNonce < msg.nonce {
          return Some(ErrNonceTooHigh);
        } else if stNonce > msg.nonce {
          return Some(ErrNonceTooLow);
        } else if Wrap64(stNonce + 1) < stNonce {
          return Some(ErrNonceMax);
        }
        if Get(evm.world, msg.from).code != [] {
          return Some(ErrSenderNoEOA);
        }
      }
      assert AccountError(evm.world, msg).None?;
      err := CheckFees();
      if err.Some? {
        return;
      }
      err := CheckBlobs();
      if err.Some? {
        return;
      }
      err := BuyGas();
    }

    method TransitionDb() returns (result: TxResult)
      requires |msg.data| < U64
      modifies this, evm`world, gp
      ensures Outcome(evm.world, gp.gas, result)
           == Applied(evm.machine, block, evm.depth, old(evm.world), old(gp.gas), msg)
    {
      var err := PreCheck();
      if err.Some? {
        return Rejected(err.value);
      }
      err := ChargeIntrinsic();
      if err.Some? {
        return Rejected(err.value);
      }
      ghost var x := Execution(evm.machine, evm.depth, evm.world, msg, gasRemaining);
      var ret, vmErr := Execute(Wrap256(msg.value));
      result := Settle(ret, vmErr, x);
    }
  }
}
