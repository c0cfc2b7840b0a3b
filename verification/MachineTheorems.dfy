/** The machine as the sources have it, an interpreter over opcodes and the stub message call, and the
    promises of the state transition for it: all that is assumed is what single opcodes do, and for
    the absence of panics that registers can hold their parameters. */
module MachineTheorems {
  import opened Words
  import opened World
  import opened Evm
  import opened CreationProperties
  import opened Frames
  import opened InterpreterProperties
  import opened Transition
  import opened TransitionProperties
  import opened TransitionTheorems

  ghost function SourceMachine(chain: Chain, createAddress: (Address, uint64) -> Address): Machine
    requires MeteredTable(chain.table)
  {
    Machine(chain.rules, chain.snapshots, (w: World, f: Frame) => Interpreted(chain, w, f),
            (w: World, f: Frame) => ExecResult(w, [], 0, None), createAddress)
  }

  /** The machine is fair; and it is an interpreter throughout where registers hold the parameters of
      every opcode. Elsewhere init code may panic, and the machine then hands nothing back. */
  lemma SourceMachineIsFair(chain: Chain, createAddress: (Address, uint64) -> Address)
    requires MeteredTable(chain.table) && ConservingTable(chain.table)
    ensures FairMachine(SourceMachine(chain, createAddress))
    ensures FitsRegisters(chain.table) ==> Interprets(chain, SourceMachine(chain, createAddress).run)
  {
    var m := SourceMachine(chain, createAddress);
    forall w: World, f: Frame
      ensures FairResult(w, f, m.run(w, f))
    {
      assert m.run(w, f) == Interpreted(chain, w, f);
      if Yields(chain, w, f, m.run(w, f)) { YieldIsFair(chain, w, f, m.run(w, f)); }
    }
    StubCallIsFair(m);
  }

  /** A signed transaction burns exactly the base fee of the gas used and the blob fee, whatever its
      init code does with opcodes that make and burn nothing. */
  lemma TransactionsConserveEther(chain: Chain, createAddress: (Address, uint64) -> Address, block: Block, w: World,
                                  pool: uint64, tx: Transaction)
    requires MeteredTable(chain.table) && ConservingTable(chain.table) && Total(w) < U256
    requires WellPriced(tx)
    requires Payable(chain.rules, block, TransactionToMessage(tx, Some(block.baseFee)))
    ensures var msg := TransactionToMessage(tx, Some(block.baseFee));
            var o := Applied(SourceMachine(chain, createAddress), block, 0, w, pool, msg);
            o.result.Done? ==>
              Total(w) - Total(o.world)
              == (if chain.rules.london && !FeesSkipped(block, msg) then o.result.usedGas * block.baseFee else 0)
                 + BlobFee(chain.rules, block, msg)
  {
    SourceMachineIsFair(chain, createAddress);
    EtherConservation(SourceMachine(chain, createAddress), block, 0, w, pool, tx, Some(block.baseFee));
  }

  /** Over any run of messages whose gas limits fit the pool: nothing panics, the pool gets all leftovers,
      and the accepted messages of each account carry consecutive nonces. */
  lemma RunsAreSound(chain: Chain, createAddress: (Address, uint64) -> Address, block: Block, w: World, pool: uint64,
                     msgs: seq<Message>, a: Address)
    requires MeteredTable(chain.table) && ConservingTable(chain.table) && FitsRegisters(chain.table)
    requires Total(w) < U256
    requires AllSound(chain.rules, block, msgs) && AllChecked(msgs) && pool + GasBought(msgs) <= MAX_UINT64
    requires forall i :: 0 <= i < |msgs| ==> !OverpricedButFree(chain.rules, msgs[i])
    ensures var run := Run(SourceMachine(chain, createAddress), block, 0, w, pool, msgs);
            && |run| == |msgs|
            && (forall i :: 0 <= i < |run| ==> !run[i].result.Panicked?)
            && FinalPool(pool, run) == pool + Leftovers(run, msgs)
            && Total(FinalWorld(w, run)) == Total(w) - Losses(chain.rules, block, w, run, msgs)
            && var nonces := AcceptedNonces(run, msgs, a);
               && Consecutive(nonces)
               && (nonces != [] && Signer(w, a) ==> nonces[0] == Nonce(w, a))
  {
    var m := SourceMachine(chain, createAddress);
    SourceMachineIsFair(chain, createAddress);
    RunBooks(m, block, 0, w, pool, msgs);
    NoncesAreConsecutive(m, block, 0, w, pool, msgs, a);
  }
}
