# Message execution core: model and proofs

The model covers the parts of the EVM fuzzer where one function is only correct because of another:

- applying a message to the world state: the checks, the purchase of gas, contract creation, the refund, the payment of the coinbase, and whole runs of messages (`World`, `Intrinsic`, `Evm`, `CreationProperties`, `Transition`, `TransitionProperties`, `TransitionRules`, `TransitionTheorems`);
- the interpreter loop with its gas, stack and memory accounting, call depth, read-only flag, and the pool of symbolic registers it fills (`RegPool`, `Frames`, `Interpreter`, `InterpreterProperties`), joined with the first in `MachineTheorems`;
- the MODEXP precompile and the BLS12-381 and BLAKE2 byte codecs (`Bytes`, `ModExp`, `ModExpProperties`, `BlsCodec`, `Blake2Codec`);
- the bytecode iterator (`Disassembler`);
- the state database with accounts created on reading, storage caches and the creation journal (`StateDB`, `StateDBProperties`).

`Words` holds the machine words. Wherever the sources use wrapping `uint64` or `uint256` arithmetic, discard an overflow flag or panic, the model does too; the absence of wraps is a result, not an assumption.

How the pieces fit: what the sources do step by step is a class with methods, tied by its contracts to functions of the state before; the `...Properties` and `...Theorems` modules prove what the design promises about those functions. The only black boxes are single opcodes and the message call. `Frames.Operation` is an opcode: it may look at everything in its frame, change the world, and run or create another frame. Two things are assumed of it: `Frames.Metered` (it declares its stack effect, its iteration as a whole costs gas unless it halts, where what was charged ahead for a nested frame may come back, and it calls only within the depth limit) and `Frames.Conserving` (it neither makes nor burns ether, changes no nonce or code of an account in use without code, and to run code for such an account has none to run). `InterpreterProperties.SmallTableMeetsAssumptions` shows them met by calls of any account, creations at any address and pushes. `Evm.Machine` holds the interpreter and the message call as functions, and `Evm.FairMachine` is what the transaction theorems need of them. `InterpreterProperties.InterpreterIsFair` proves it of an interpreter, frames nested to any depth included, `CreationProperties.StubCallIsFair` of the message call as the sources have it and `InterpreterProperties.MessageCallIsFair` of one that does what its documentation says. `MachineTheorems` states the results for the machine so assembled, from `Metered` and `Conserving`; that nothing panics also takes `Frames.FitsRegisters`, opcodes of at most seven stack parameters.

Properties that turned out false of the code, each with a concrete input or an exact condition:

- A sender can be charged more than admission checked when the blob fee check is skipped: `TransitionTheorems.AffordableIff`, `TransitionTheorems.AffordableByBlobFee`, `TransitionTheorems.SkippedBlobFeeMintsEther`. Under the flags that skip the check, core/vm/evm.go:43 expects a blob base fee of zero, and nothing sets it to zero: the input needs a caller who left it otherwise.
- `getData` is not safe for every size: `ModExp.GetDataIsWindowIff`, `ModExp.GetDataOffByWords`.
- MODEXP priced by EIP-198 can be asked for an exponent length that `Run` truncates, which is harmless for some lengths and a wrong result or a panic for all others: `ModExpProperties.CheapRunIsExactIff`, `ModExpProperties.CheapRunIsWrong`. Priced by EIP-2565 it cannot: `ModExpProperties.AffordableRunIsExact`.
- With the stub snapshot a failed creation is not rolled back: `CreationProperties.RestoresIff`, `CreationProperties.StubSnapshotDoesNotRestore`.
- A run does not always return: it panics when, and only when, it reaches an operation with more than seven stack parameters, here or in a nested frame (`Interpreter.Interpreter.Run`, with `Frames.FramePanics`; DUP8 and SWAP7 need eight). `InterpreterProperties.WideTablePanics` is a case, `Frames.FittingFrame` the tables on which it cannot happen.
- Undoing a creation that was not guarded loses the account: `StateDBProperties.UnguardedCreationRestoresIff`.
- An access list long enough to wrap the two unchecked additions is undercharged: `Intrinsic.ChargeIsTrueCostIff`, `Intrinsic.LongAccessListIsUndercharged`.

Where comments or documents disagree with the code, the model follows the code: the effective tip is the smaller of the tip cap and the fee cap less the base fee (docs/evm-execution-model.md multiplies gas and price instead); `Exist` is false exactly for destructed accounts without a live object, while its comment wants true for them; `getData` is described as overflow safe.

## Model

| member | source | states |
|---|---|---|
| TransitionTheorems.EtherConservation | core/state_transition.go:145-256 | a successful transaction whose required balance covers its charge takes out of circulation exactly base fee times gas used plus the blob fee, and before London or with fee checks off only the blob fee, for any fair execution, the sender being the coinbase or not |
| TransitionTheorems.EtherConservationByBlobFee | core/state_transition.go:360-377 | so does any one whose blob fee, if charged, was checked |
| TransitionTheorems.AffordableIff | core/state_transition.go:381-423 | for any message that can be admitted, admission guarantees that the charge and the value are covered if and only if they are within the balance it requires |
| TransitionTheorems.AffordableByBlobFee | core/state_transition.go:360-377 | they are when blobs that are charged for have their fee checked, and for a message that pays its full cap only then |
| TransitionTheorems.SkippedBlobFeeMintsEther | core/state_transition.go:363-377 | a sender without a balance passes the checks and wraps around to almost 2^256 when the blob fee check is skipped |
| TransitionTheorems.NonceStep | core/state_transition.go:212-218 | an accepted message raises its sender's nonce from the message's own by one on both paths and whatever the execution error, and leaves every other account in use without code alone; a rejected one changes no nonce and no code |
| TransitionTheorems.NoncesAreConsecutive | core/state_transition.go:297-312 | over any run of messages the accepted ones of any account carry consecutive nonces, so none is accepted twice, from the nonce at the start if the account was in use |
| TransitionTheorems.RunBooks | core/state_transition.go:258-285 | over any run whose gas limits fit the pool, nothing panics, the pool ends at its start plus all leftovers, and the supply falls by the sum of the losses; a message may be without gas unless its price is past a word and its intrinsic gas wraps to nothing |
| TransitionProperties.OneMessage | core/state_transition.go:220-256 | for one message: the loss of supply, the leftover returned to the pool, the refund within its share, the exact state after a rejection, and when a panic is possible |
| TransitionProperties.ExecutionIsFair | core/state_transition.go:207-218 | either path returns no more gas than it got, keeps the supply and the nonce of every other account in use without code, and raises that of a sender without code by one unless the creation is refused up front |
| TransitionProperties.AdmittedIsAffordable | core/state_transition.go:403-421 | once admitted, the charge fits a word despite the discarded flag, the debit does not underflow, and the value to send remains |
| TransitionProperties.LateErrorsAreNotFunds | core/state_transition.go:188-195 | the value overflow and the insufficient funds errors after the purchase of gas are unreachable |
| TransitionProperties.TipIsUnsigned | core/state_transition.go:229-233 | the tip whose overflow flag is discarded is a plain word whenever it is paid under London rules |
| TransitionProperties.CreditsDoNotWrap | core/state_transition.go:271-274 | neither the refund multiplication nor the two credits wrap, and the supply changes by what was not given back |
| TransitionProperties.WhoIsPaid | core/state_transition.go:229-248 | the sender gets the unused gas back at its price, the coinbase the tip on the gas used, nobody else anything |
| TransitionProperties.RefundIsCapped | core/state_transition.go:258-269 | the refund is the largest within the counter and the share of the gas used, and never wraps the gas counter |
| TransitionProperties.TransactionsAreSound | core/types/tx_blob.go:166-175 | a message built from a transaction has unsigned amounts, a price within its cap and a tip within its price, and its price is the one the transaction computes for itself |
| TransitionRules.MessageCarries | core/state_transition.go:51-75 | a message carries every field of its transaction, and as its price the tip on top of the base fee as far as the fee cap allows |
| TransitionRules.AdmittedIff | core/state_transition.go:297-423 | a message is admitted if and only if account, fees, blobs and funds are in order, each spelled out in numbers, and otherwise rejected for the first that is not |
| TransitionRules.AccountErrorIs | core/state_transition.go:299-318 | which account error, if and only if which nonce or code |
| TransitionRules.FeeErrorIs | core/state_transition.go:321-345 | which fee error, if and only if which cap, tip or base fee |
| TransitionRules.BlobErrorIs | core/state_transition.go:347-377 | which blob error, and that the reported hash is the first of another version |
| TransitionRules.FundsErrorIs | core/state_transition.go:381-411 | funds are short if and only if the balance is below gas limit times fee cap plus value plus 131072 times the blob fee cap for each blob |
| TransitionRules.ChargeIs | core/state_transition.go:381-423 | the debit is gas limit times price plus 131072 times the blob base fee for each blob, from the sender alone |
| TransitionRules.LateErrorIs | core/state_transition.go:171-200 | which error after the purchase of gas, in order |
| TransitionRules.IntrinsicOfIs | core/state_transition.go:171 | the intrinsic gas goes by the message's own data and target and by Homestead, Istanbul and Shanghai rules |
| TransitionRules.CallIsAsked | core/state_transition.go:215-217 | a message call is made with the nonce raised and the message's own sender, target, data, value and remaining gas |
| TransitionRules.CreationIsAsked | core/state_transition.go:212-213 | a creation runs the message's data at the address of the sender and its nonce before it is raised |
| TransitionRules.RefundIs | core/state_transition.go:220-228 | of every finished message: gas refunded and used is what the execution took, the refund is the counter or the full share, a fifth under London and a half before, and the execution's result is handed on |
| TransitionRules.TipIs | core/state_transition.go:229-238 | the coinbase's tip per unit of gas, and when it is not paid |
| Transition.StateTransition.TransitionDb | core/state_transition.go:145-256 | the world, the pool and the result after applying a message, for every message and world |
| Transition.StateTransition.PreCheck | core/state_transition.go:297-379 | the first failing check, in order, and no change when there is one |
| Transition.StateTransition.BuyGas | core/state_transition.go:381-423 | the required balance is checked at the fee caps and the charge is taken at the actual prices |
| Transition.StateTransition.RefundGas | core/state_transition.go:258-285 | the capped refund, the returned ether and the pool, with both panics |
| Transition.GasPool.AddGas | core/gas_pool.go:21-27 | the addition happens unless it would pass 2^64 - 1 |
| Intrinsic.IntrinsicGas | core/state_transition.go:426-473 | the loop and guarded additions give the true integer cost, or the overflow error exactly when it exceeds 2^64 - 1 without the access list |
| Intrinsic.ChargeIsTrueCostIff | core/state_transition.go:468-472 | the charge is the true cost if and only if that fits a word, and is never above it |
| Intrinsic.OneMoreByte | core/state_transition.go:426-467 | without data 21000, or 53000 for a Homestead creation; each byte adds 4 if zero, else 16 under EIP-2028 and 68 before, and 2 for each word begun in an EIP-3860 creation |
| Intrinsic.OneMoreTuple | core/state_transition.go:468-472 | each tuple of the access list adds 2400 and 1900 for each of its keys, as far as a word holds it |
| Intrinsic.LongAccessListIsUndercharged | core/state_transition.go:468-472 | an access list whose unchecked additions wrap, and what is charged for it |
| Intrinsic.OverflowNeedsHugeData | core/state_transition.go:434-467 | no data below 2^57 bytes can raise the overflow error |
| Intrinsic.StorageKeys | core/types/tx_access_list.go:15-21 | the loop counts the storage keys of all tuples |
| Words.ToWordSize | core/state_transition.go:476-482 | the word count is the true ceiling for every uint64 |
| Evm.EVM.Create | core/vm/evm.go:97-100 | the outcome of a creation at the address derived from the caller's nonce before it is raised |
| Evm.EVM.CreateAt | core/vm/evm.go:103-226 | the world, gas, result and error of a creation in every case |
| CreationProperties.CreationIsFair | core/vm/evm.go:103-226 | a creation returns no more gas than it got, keeps the supply and every account in use without code but its caller, and raises the nonce of a caller without code by one unless refused up front |
| CreationProperties.CreationDeploysIff | core/vm/evm.go:179-213 | code is deployed if and only if the init code succeeded, the size and 0xEF rules hold and the deposit was affordable, and then it was paid |
| CreationProperties.FailedCreation | core/vm/evm.go:215-225 | what a failed creation leaves of the world and of the gas, with working snapshots and with the stub |
| CreationProperties.CreationErrorIs | core/vm/evm.go:179-225 | which error, from the run alone: its own, then too long a code, then 0xEF, then an unpaid deposit; what was returned is handed on, and whose gas is kept |
| CreationProperties.CreationStopsIff | core/vm/evm.go:106-139 | when a creation stops before its init code, with which error, and what it changes and costs |
| CreationProperties.InitRunIsAsked | core/vm/evm.go:160-177 | the init code runs with the creation's own caller, address, code, gas and value |
| CreationProperties.RestoresIff | core/vm/evm.go:215-225 | failing restores the world for every fair run if and only if snapshots work and the rules are those of Homestead or later |
| CreationProperties.StubSnapshotDoesNotRestore | core/state/statedb.go:179-186 | with the stub snapshot, under EIP-158 and Homestead rules, a creation that fails after a run that left the new account's nonce at one does not restore the world |
| CreationProperties.EndowedKeeps | core/vm/evm.go:145-160 | setting up the new account keeps the supply and the caller's nonce |
| CreationProperties.DeployKeeps | core/vm/evm.go:179-225 | whatever becomes of the code returned, deployed, refused or rolled back, no gas or ether is gained or lost by it and no account in use without code is touched |
| Interpreter.Interpreter.Run | core/vm/interpreter.go:31-201 | entered at any depth, it returns what an execution of its code to its end leaves, or panics where an execution reaches an operation a register cannot hold; depth and read-only flag are put back on every exit; nested frames are deeper, within the limit and read-only below a read-only one |
| Frames.FinishedIs | core/vm/interpreter.go:189-201 | a frame leaves what its last iteration does: the operation's return value and error, stopping being no error, or the refusal |
| InterpreterProperties.StopReturnsCleanly | core/vm/interpreter.go:196-198 | code that only stops returns no error and keeps its gas |
| Frames.ChargesAre | core/vm/interpreter.go:120-172 | which refusal, if and only if which stack height, gas or memory size, and what an operation that runs has paid |
| Frames.ReadyIs | core/vm/interpreter.go:126-172 | an operation runs on its frame less its charges, with zeros appended to the memory up to the size paid for |
| Frames.InnerIs | core/vm/interpreter.go:31-60 | a nested frame begins one level deeper, empty, and read-only if asked or already so |
| Frames.FittingFrame | core/vm/reg.go:38-57 | no frame panics if no operation has more than seven parameters |
| InterpreterProperties.WideTablePanics | core/vm/reg.go:55-56 | a table that is metered and conserving, and a code of nine bytes that panics on it |
| Interpreter.Interpreter.Loop | core/vm/interpreter.go:101-200 | the loop ends, with a legal execution from the empty frame, the result of its last iteration, and a register in the pool for every step |
| Interpreter.Interpreter.Turn | core/vm/interpreter.go:101-195 | one iteration of a run goes on with it or ends it, and spends gas if it goes on |
| Interpreter.Interpreter.Iterate | core/vm/interpreter.go:115-194 | one iteration is legal: it reads the code, charges, grows memory and executes on what results |
| Interpreter.Interpreter.Charge | core/vm/interpreter.go:120-172 | the stack check, both charges, the memory size and every refusal, in order |
| Interpreter.Interpreter.Perform | core/vm/interpreter.go:188-190 | the register is appended and wired, the operation executed; it panics when the operation has more than seven parameters |
| Interpreter.Interpreter.Nest | core/vm/interpreter.go:31-53 | the frame an operation asks for has the outcome of running the given code one level deeper, read-only if asked or already so, between the steps of a creation if it is one |
| Interpreter.Interpreter.Create | core/vm/evm.go:103-226 | a creation from a running frame is refused, collides, or has the outcome of deploying what an execution of its init code left |
| InterpreterProperties.CalledFrameIs | core/vm/interpreter.go:31-53 | a called frame runs one level deeper for the account named, with the gas named, read-only if asked or already so, and its result is handed back |
| InterpreterProperties.CreatedFrameIs | core/vm/evm.go:157-225 | so does the init code of a creation from a running frame, for the new account; what a failing one leaves of the world and the gas |
| Frames.RoundUp | core/vm/interpreter.go:144-146 | rounding to words fails exactly above 2^64 - 32 and otherwise gives the next multiple of 32 |
| Interpreter.Memory.Resize | core/vm/memory.go:25-29 | memory grows with zeros to the size, never shrinks |
| Interpreter.Contract.UseGas | core/vm/contract.go:73-82 | gas is taken exactly when there is enough |
| Frames.PerformedIsTame | core/vm/reg.go:76-78 | what executing an operation does to the gas, stack and memory of its frame, nested frame or not |
| Frames.PerformedKeeps | core/vm/reg.go:76-78 | executing an operation keeps the supply and every account in use without code but its own, nested frame or not |
| Frames.NestedKeeps | core/vm/evm.go:103-226 | so does a nested frame, for the account that asked for it: a creation reaches only an address nothing lived at |
| Frames.ExecutionKeeps | core/vm/interpreter.go:101-200 | an execution of any length, with all frames nested in it, keeps the supply and every account in use without code but its own |
| Frames.ExecutionSpends | core/vm/interpreter.go:101-200 | it never has more gas than at its start |
| InterpreterProperties.GasLedger | core/vm/interpreter.go:126-158 | gas left plus all charges plus what operations took is the gas at the start, in at most one more iteration than units of gas |
| InterpreterProperties.FrameInvariant | core/vm/interpreter.go:121-172 | at every iteration the stack is within 1024, memory is whole words and covers the request, and the stack is within the operation's bounds |
| InterpreterProperties.MemoryNeverShrinks | core/vm/memory.go:25-29 | memory never shrinks between iterations |
| InterpreterProperties.LegalStep | core/vm/interpreter.go:115-194 | a legal iteration keeps whole words, costs gas if it goes on, and accounts for it |
| InterpreterProperties.Execute | core/vm/evm.go:173-177 | a new interpreter run on any frame in any world yields an outcome of the frame, or panics where the frame does |
| InterpreterProperties.EveryFrameEnds | core/vm/interpreter.go:101-200 | every frame has an outcome or a panic: its execution ends, and so do all frames nested in it |
| InterpreterProperties.InterpreterIsFair | core/vm/interpreter.go:31-201 | an interpreter over metered and conserving opcodes is fair, with calls and creations nested to any depth |
| InterpreterProperties.MessageCallIsFair | core/vm/evm.go:228-231 | a message call that moves the value, runs the code of the account called and reverses on an error is fair too |
| MachineTheorems.SourceMachineIsFair | core/vm/evm.go:97-234 | the interpreter and the stub message call together are a fair machine for every metered and conserving table, one that returns throughout if registers hold the parameters of every opcode |
| MachineTheorems.TransactionsConserveEther | core/state_transition.go:145-256 | on that machine a signed transaction whose required balance covers its charge burns exactly the base fee of the gas used and the blob fee |
| MachineTheorems.RunsAreSound | core/state_transition.go:145-256 | on that machine, with opcodes of at most seven parameters, no run of messages panics, its books balance, and each account's accepted messages carry consecutive nonces |
| InterpreterProperties.SmallTableMeetsAssumptions | core/vm/jump_table.go:10-26 | the assumptions are met by a table with calls of any account as the world has it, creations at any address and free halting operations |
| RegPool.RegPool.Append | core/vm/reg_pool.go:21-32 | the entry is added at the end, numbered by its earlier visits, and the pool stays numbered and backward-linked |
| RegPool.RegPool.Lookup | core/vm/reg_pool.go:34-42 | the visit number is one more than the last, or zero |
| RegPool.NewReg | core/vm/reg.go:31-69 | the parameters are the top stack items in order and nothing else, with a panic exactly beyond seven |
| RegPool.WiredFields | core/vm/reg.go:38-57 | L, M and R0 to R4 hold the stack items from the top down |
| RegPool.KeysAreUnique | core/vm/reg_pool.go:24-30 | no two of up to 2^64 entries share an index |
| RegPool.VisitsAreConsecutive | core/vm/reg_pool.go:34-42 | the visit numbers at a depth and program counter are exactly 0 to n-1, in order |
| RegPool.Unfold | core/vm/reg.go:5-29 | following the parameters of a register ends, in the expression whose children are its parameters |
| RegPool.UnfoldIs | core/vm/reg.go:5-29 | each parameter unfolds to what the register it points to stands for |
| RegPool.UnfoldIsStable | core/vm/reg_pool.go:21-32 | later registers never change what an earlier one stands for |
| ModExp.GetDataIsWindowIff | core/vm/common.go:58-68 | the result is the zero-padded window if and only if the size is below 2^63, and a panic exactly when the bounds wrap |
| ModExp.GetDataOffByWords | core/vm/common.go:58-68 | one call that panics and one that is not padded |
| ModExpProperties.AdjustedLengthIsSound | core/vm/contracts.go:346-379 | the adjusted exponent length is at least the bit length of the true exponent less one, with equality when the head is not zero or holds the whole exponent |
| ModExpProperties.GasCoversExponent | core/vm/contracts.go:380-413 | both prices are at least those of the true exponent, and equal to them when the head is not zero |
| ModExpProperties.Gas2565Is | core/vm/contracts.go:380-405 | a third of the square of the words times the adjusted length, never under 200, capped at a word |
| ModExpProperties.FloorIs | core/vm/contracts.go:400-403 | no call is cheaper than 200, and one on empty operands costs that |
| ModExpProperties.Gas198Is | core/vm/contracts.go:407-413 | a twentieth of the complexity times the adjusted length, capped at a word |
| ModExpProperties.ComplexityIs | core/vm/contracts.go:325-343 | the three pieces of the complexity, as integers rounded down |
| ModExpProperties.Price2565IsMonotone | core/vm/contracts.go:391-405 | the EIP-2565 price grows with the operand size and the exponent |
| ModExpProperties.Price198IsMonotone | core/vm/contracts.go:407-413 | the EIP-198 price grows with the operand size and the exponent |
| ModExpProperties.MultComplexityIsMonotone | core/vm/contracts.go:325-343 | monotone across both breakpoints |
| ModExpProperties.MultComplexityBelowSquare | core/vm/contracts.go:325-343 | never above the square |
| ModExpProperties.ResultIsRemainder | core/vm/contracts.go:439-449 | the output is the remainder in exactly the modulus length, shortcut for base one and zero modulus included |
| ModExpProperties.RunIsModExp | core/vm/contracts.go:416-449 | with lengths below 2^63, the modular exponentiation of the operands as the input spells them |
| ModExpProperties.SpelledRun | core/vm/contracts.go:416-449 | an input that spells base, exponent and modulus in given lengths returns the remainder in the modulus length |
| ModExpProperties.AffordableRunIsExact | core/vm/contracts.go:416-449 | the same for every input whose EIP-2565 gas is not saturated |
| ModExpProperties.CheapRunIsExactIff | core/vm/contracts.go:407-449 | for given lengths, unsaturated EIP-198 gas means a right result on every input if and only if nothing is to compute, the gas is always saturated, or the truncated length moves no modulus that could hold data |
| ModExpProperties.CheapRunIsWrong | core/vm/contracts.go:407-449 | an input with unsaturated EIP-198 gas and a wrong result |
| BlsCodec.DecodeG1Iff | core/vm/contracts.go:1019-1094 | a byte string decodes to a G1 point if and only if it is its encoding and the point is on the curve |
| BlsCodec.DecodeG2Iff | core/vm/contracts.go:1042-1106 | the same for G2 |
| BlsCodec.CoordinatesAre | core/vm/contracts.go:1089-1106 | where each coordinate is, big-endian in the last 48 of its 64 bytes |
| BlsCodec.ElementErrorIs | core/vm/contracts.go:1072-1086 | which error a rejected element is |
| BlsCodec.DecodeFieldElement | core/vm/contracts.go:1072-1086 | the element, or the error of the first failing check |
| BlsCodec.DecodePointG1 | core/vm/contracts.go:1019-1039 | the point, or the first error among its coordinates, then the curve |
| BlsCodec.DecodePointG2 | core/vm/contracts.go:1042-1068 | the point, or the first error among its coordinates, then the curve |
| BlsCodec.EncodePointG1 | core/vm/contracts.go:1089-1094 | the buffer holds the encoding |
| BlsCodec.EncodePointG2 | core/vm/contracts.go:1097-1106 | the buffer holds the encoding |
| Blake2Codec.ParsedIff | core/vm/contracts.go:641-665 | accepted inputs correspond one to one with parameters |
| Blake2Codec.ParsedIs | core/vm/contracts.go:641-665 | where each parameter is and in which byte order, and which error a rejected input is |
| Blake2Codec.Run | core/vm/contracts.go:641-678 | the loops read the parameters, and the output decodes to the compressed state |
| Disassembler.InstructionIterator.Next | core/asm/asm.go:23-61 | moves along the listing one instruction at a time; false exactly at its end, for good, and the error is that of a cut-off push |
| Disassembler.WidthIs | core/vm/opcode.go:8-10 | the opcodes 0x5f to 0x7f carry none to thirty-two bytes, all others none |
| Disassembler.Disassemble | core/asm/asm.go:102-117 | the whole listing, or the error |
| Disassembler.DecodeTiles | core/asm/asm.go:23-61 | the listing is contiguous and spells the code back, up to the truncated push if there is one |
| Disassembler.SerializeDecodes | core/asm/asm.go:23-61 | any contiguous instruction list is what its serialisation decodes to |
| Disassembler.AcceptedIff | core/asm/asm.go:49-54 | a script is accepted if and only if it serialises some contiguous list |
| Disassembler.ListingIsInjective | core/asm/asm.go:102-117 | accepted scripts have the same listing if and only if they are equal |
| StateDB.StateDB.GetStateObject | core/state/statedb.go:148-164 | a lookup inserts an empty account unless the address was destructed |
| StateDBProperties.LookIs | core/state/statedb.go:148-164 | what a lookup finds and inserts |
| StateDB.StateDB.GetState | core/state/state_object.go:105-119 | the dirty value over the committed one, with the cache filled |
| StateDB.StateDB.GetCommittedState | core/state/state_object.go:123-147 | pending over cached over zero, with the cache filled |
| StateDBProperties.SlotIs | core/state/state_object.go:105-147 | which of the storage maps a slot is read from |
| StateDB.StateDB.CreateAccount | core/state/statedb.go:139-144 | journals and overwrites |
| StateDB.StateDB.CreateContract | core/state/statedb.go:52-58 | sets and journals the flag once, with the nil dereference of a destructed account |
| StateDBProperties.ContractedIs | core/state/statedb.go:52-58 | the flag goes up and nothing else changes, with one entry if it was down |
| StateDBProperties.CreatedIs | core/state/statedb.go:139-144 | the account is empty, all others as before, the entry appended and counted |
| StateDB.StateDB.Append | core/state/journal.go:27-32 | the entry is added and a creation counted |
| StateDB.StateDB.Revert | core/state/journal.go:49-65 | what undoing an entry does, and when it dereferences nil |
| StateDBProperties.RevertedIs | core/state/journal.go:49-65 | the account is dropped, or its flag lowered, and nothing else changes |
| StateDBProperties.ReadsAreInvisible | core/state/statedb.go:148-164 | reads insert and cache, and no reader can tell |
| StateDBProperties.UnwindingRestores | core/state/journal.go:49-65 | undoing any run of guarded creations and reads newest first never dereferences nil and restores all a reader can see |
| StateDBProperties.RunsKeepCounts | core/state/journal.go:27-32 | the dirty counters are the numbers of creations |
| StateDBProperties.UnguardedCreationRestoresIff | core/state/statedb.go:39-45 | undoing an unguarded creation restores the account if and only if there was nothing to lose |

## Left out

- `EVM.Call` is a stub in the sources and opcode bodies, gas functions and jump table contents are not there at all; they are black boxes with stated assumptions. Gas and memory size functions are taken not to change anything.
- Interpreter.Interpreter.Nest: does not check the depth of message calls, because `EVM.Call` is a stub and `Run` has no check; that opcodes call only within the limit is assumed in `Frames.MeteredEffect`. The check of creations (core/vm/evm.go:106) is modelled.
- The value a call between accounts moves and the precompiles it may reach belong to the opcode.
- Transition.StateTransition.TransitionDb: leaves out `Prepare` (core/state_transition.go:205), which resets the access list and the transient storage; only opcodes read them, and they are not part of `World`.
- `newReg` never stores the operation it is given; the model executes the operation passed to it, as intended.
- Pointers between registers are positions in the pool, register data and the shared program counter pointer belong to the opaque outside state, and state objects are values in the map: aliasing of objects is not captured.
- `RevertToSnapshot` is modelled both as its interface promises and as the stub it is; the sources hold no reverse walk of the journal, so `StateDBProperties.Unwind` is one.
- Code and code hash, and storage and its root, are modelled by the content being empty or not; hash collisions are left out, and so are the code caches of `onchain/onchain.go` with their remote.
- Messages have a gas fee cap and, when they carry blobs, a blob fee cap, as `TransactionToMessage` provides; nil caps and nil base fees, which panic, are left out.
- EIP-4762 access events are fixed to off; tracers, the stack pool, error texts and the text of disassembled lines are left out.
- Allocation failures: a slice that Go could not allocate is modelled as a value.
- Curve equations, pairings, hashes and the BLAKE2 compression are parameters; RLP, signatures and the sender cache are left out.
- `calcMemSize64` and `getDataAndAdjustedBounds` would only add easy members.
