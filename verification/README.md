# pyethereum, modelled in Dafny

pyethereum is an Ethereum node core: a Merkle Patricia trie, an EVM with message calls over a journaled state, chain
objects for proof of work and for the hybrid Casper fork choice, codecs, and a transaction queue. This project models
those parts and proves what they are relied upon for. `dafny verify dfyconfig.toml` verifies everything.

Code that computes a value is modelled by functions. Code that works step by step is modelled by methods and classes over
the same fields, each proved against such a function or against an outright statement; the properties are then lemmas
about the functions. The laws say what a step, a message, a transaction or a block does in terms of integers, bytes and
balances, without the functions that compute it.

| part | files |
|---|---|
| trie: nibbles, tree, ordered lookup, key-value store | Nibbles, Trie, TrieOrder, TrieStore |
| RLP | BigEndian, Rlp |
| EVM: words, opcode table, world, one step, frames, safety, gas below zero | Words, Opcodes, World, Machine, Evm, EvmSafety, Overdraft |
| transactions, and what a commit makes of their accounts | Transactions, Tracking |
| chunked interpreter | FastVm, FastVmRun |
| journaled state, interpreter, transactions and blocks over it | Headers, StateJournal, Compustate, VmRun, TxRun, BlockRun |
| what blocks tried in turn make of the head state | HeadRun |
| proof-of-work chain, uncles | PowChain, Uncles |
| Casper checkpoints | Casper |
| what instructions, calls, messages, transactions and blocks mean, and what code cannot do from outside | InstructionLaws, StateLaws, CallLaws, MessageLaws, Isolation, TransactionLaws, BlockLaws |
| the encodings byte by byte | FormatLaws |
| queue, ABI, compression | Queue, Abi, AbiArrays, Compress |

## What the proofs found

Where the code does not do what one would expect, the model follows the code, and a lemma gives the exact condition or
an example.

- **LOG can overdraw gas.** Its data fee is subtracted without a check (ethereum/vm.py:620). The next instruction catches
  that, but a frame whose code ends there returns negative gas: `EvmSafety.OverdraftExample` returns -256 of 393.
  `Overdraft.NegativeIff`, `ApplyNegativeIff` and `CreateNegativeIff` say exactly when a frame, a call or a creation does,
  and `Overdraft.ExecuteEndsInLog` that some code among all that ran then ends in a LOG. `Overdraft.RejectedIff`: this is
  the only reason for which a validated transaction is still thrown away.
- **An empty value is stored, not deleted** (ethereum/trie.py:916-936, where the redirection to `delete` is commented out).
  `Trie.UpdateCanonicalIff` says exactly when this leaves a trie that no sequence of other operations builds, and
  `Trie.NotDeletable` that a later `delete` can then fail its own assertion (ethereum/trie.py:654-658);
  `TrieStore.TrieObject.Delete` gives the exact condition.
- **`prev` misses the empty key** when it is the only one (`o` is then an empty list, which counts as not found,
  ethereum/trie.py:607-612): `TrieOrder.PrevIsGreatestBelow`.
- **A commit can lose storage** (ethereum/state.py:374-396). It keeps every balance, nonce and code in every fork, and before
  Spurious Dragon all storage; from then on exactly the touched accounts without balance, nonce and code lose theirs:
  `Tracking.CommitKeeps`. `TxRun.SlotLost` is a run in which a contract loses a slot to a call that only touches it.
- **A rejected block is not always undone.** `apply_block` reverts for ValueError and AssertionError
  (ethereum/meta.py:38-40), but VerificationFailed and the exceptions of invalid transactions derive from Exception
  (ethereum/exceptions.py:5-34), so a block with an invalid transaction or an uncle that breaks a rule leaves the head state
  changed. It is undone where the only fault is the proof of work of an uncle, because that is asserted
  (ethereum/pow/consensus.py:35-38, so that line 104 is never reached): `BlockRun.BadUncleSeal`. And where entries were
  journaled before and a commit happened since, the revert itself fails an assertion (ethereum/state.py:293).
  `BlockRun.ApplyBlock` gives the exact condition of each outcome and what it leaves behind, and shows that uncle safety
  survives all of them; `BlockRun.EmptyBlock`, `Misfit`, `RefusedAfterEscaped` and `RepeatedEscapes` are inputs for each.
- **The order of arrival can matter** for that reason: `BlockRun.OrderMatters` has two blocks of which the first one, rejected,
  leaves a head state on which the second one is rejected too; `HeadRun.RivalsExist` makes them blocks of the chain object,
  and `PowChain.OrderMatters` has the two chains that store different blocks. As long as no received block escapes so, the
  order does not matter: `PowChain.ArrivalOrderIrrelevant`.
- **A clock set back can leave due blocks waiting.** `process_time_queue` steps over a block whenever the queue has its old
  length after an addition (ethereum/pow/chain.py:254-258), and that happens as well when a block that waited for its parent
  is early now and joins the queue. `PowChain.Chain.ProcessTimeQueue`: no block is lost, and no due one is left unless a
  waiting one is early at the new time.
- **A reorganisation can lose transaction entries.** Entries are deleted height by height, so a transaction that moves to a
  lower height loses the entry written there (ethereum/pow/chain.py:343-371): `PowChain.MovedDownLosesEntry`, with the
  exact condition in `PowChain.KeptIff`.
- **A Casper checkpoint received twice** has its subtree score reset (ethereum/hybrid_casper/chain.py:290-291); unless that was
  0 the scores do not fit any more, and the score recorded next does not repair them: `Casper.Chain.AddBlock`.
- **A forced transaction loses its place** when it is set aside for its gas, because it comes back with the priority of its
  gas price (ethereum/transaction_queue.py:39-42): `Queue.ForceIsLostAside` is a run in which another one is popped first.
- **Compression and the encoding of 0.** Whether a lone zero byte survives depends on what `int_to_big_endian(0)` returns in
  eth_utils, which is not part of this model: `Compression.RoundTrip` covers both cases.
- **ABI arrays with dynamic elements hardly ever come back.** Their offsets do not count the length word
  (ethereum/abi.py:706) which the slices include (ethereum/abi.py:843-846), and fixed ones are read as if they had one. A
  fixed array never comes back (`AbiArrays.FixedNeverBack`), an open one never with two elements or more
  (`AbiArrays.ManyNeverBack`); with one element it does if and only if that is an open array of 32 items which are all
  encoded as the number 32 over and over (`AbiArrays.NestedBack`). `AbiArrays.AbiRoundTrip` gives the condition for whole
  argument lists; short fixed-size byte strings come back filled up.
- **`bytes[]` and `string[]` are no arrays.** Byte strings without a size are told apart before the brackets are looked at
  (ethereum/abi.py:687 and 827), so that every list for such a type is refused: `Abi.ByteStringsBack`.

## Model

| member | source | states |
|---|---|---|
| Nibbles.BinRoundTrip | ethereum/trie.py:22-50 | Splitting a byte string into nibbles and joining them gives it back, two nibbles a byte. |
| Nibbles.UnpackPack | ethereum/trie.py:74-112 | Unpacking undoes hex-prefix packing for every path, of even or odd length, with or without terminator. |
| Nibbles.PackUnpack | ethereum/trie.py:74-112 | Packing undoes unpacking exactly on byte strings with a well-formed first byte. |
| Nibbles.NibbleOrderIsByteOrder | ethereum/trie.py:22-35 | Comparing nibble paths is comparing the byte strings they come from, so ordered lookup can work on nibbles. |
| Trie.UpdateGet | ethereum/trie.py:282-376 | An update, whatever node it splits, changes the value at its key and at no other. |
| Trie.UpdateCanonical | ethereum/trie.py:282-376 | Storing a non-empty value keeps every branch at two or more items, every extension above a branch with a non-empty path, and every leaf non-empty. |
| Trie.UpdateCanonicalIff | ethereum/trie.py:916-936 | An update keeps that shape if and only if the value is non-empty or it blanks a branch value that is not needed. |
| Trie.NotDeletable | ethereum/trie.py:654-658 | Once a value was blanked in a branch with one child, deleting the key behind the child fails the assertion of the collapse. |
| Trie.CanonicalDeletable | ethereum/trie.py:632-750 | From a trie without empty values every key can be deleted. |
| Trie.DeleteGet | ethereum/trie.py:632-750 | A delete that succeeds, with all the collapsing it causes, blanks its key and leaves every other, in tries with empty values too. |
| Trie.DeleteCanonical | ethereum/trie.py:632-750 | A delete leaves no node that could be written shorter. |
| Trie.NormalizeGet | ethereum/trie.py:654-683 | Collapsing a branch with one item left keeps every lookup. |
| Trie.NormalizeCanonical | ethereum/trie.py:654-683 | Collapsing a branch over canonical children gives a canonical node. |
| Trie.CanonicalUnique | ethereum/trie.py:282-376 | Two canonical tries that answer every lookup alike are the same tree. |
| Trie.RunRefinesMap | ethereum/trie.py:249-376 | After every sequence of non-empty updates and deletes every lookup agrees with a plain dictionary. |
| Trie.RunCanonicity | ethereum/tests/test_trie.py:50-65 | Two such sequences build the same tree if and only if they end in the same dictionary; the repository samples this by permutations. |
| TrieOrder.GetAnyExtreme | ethereum/trie.py:378-412 | The search for some key returns the first key, or the last one in reverse. |
| TrieOrder.IterNearest | ethereum/trie.py:540-598 | The iteration step finds the nearest key strictly beyond a path on either side, or none exactly when there is none. |
| TrieOrder.NextIsLeastAbove | ethereum/trie.py:600-605 | `next` returns the least stored byte string strictly above the key, or nothing. |
| TrieOrder.PrevIsGreatestBelow | ethereum/trie.py:607-612 | `prev` returns the greatest one strictly below, if and only if it is not the empty key standing alone. |
| TrieStore.ItemLenIsEncodedLen | ethereum/trie.py:211-222 | The length by which a node is inlined or hashed is the length of its real RLP encoding. |
| TrieStore.ItemInjective | ethereum/trie.py:211-230 | With a hash that does not collide the raw node determines the tree below it. |
| TrieStore.RootCommits | ethereum/trie.py:175-180 | Two canonical tries have the same root hash if and only if they hold the same map. |
| TrieStore.RunRootCommits | ethereum/tests/test_trie.py:50-65 | Sequences of updates and deletes end in the same root hash if and only if they end in the same dictionary. |
| TrieStore.TrieObject.EncodeNode | ethereum/trie.py:211-222 | Returns the reference of a node, inline below 32 bytes, and makes it readable without losing any stored entry. |
| TrieStore.TrieObject.DecodeToNode | ethereum/trie.py:224-230 | Reads a readable reference back to the node. |
| TrieStore.TrieObject.Get | ethereum/trie.py:249-280 | Looks a key up through inlined and hashed nodes as the tree has it. |
| TrieStore.TrieObject.UpdateNode | ethereum/trie.py:282-376 | The recursion over raw nodes yields the raw form of the updated tree, all of it readable. |
| TrieStore.TrieObject.DeleteNode | ethereum/trie.py:632-750 | The same for deletion; it fails exactly if a branch on the way loses its last item. |
| TrieStore.TrieObject.NormalizeBranchNode | ethereum/trie.py:654-683 | The same for the collapse of a branch; the assertion fails exactly if no item is left. |
| TrieStore.TrieObject.Update | ethereum/trie.py:916-936 | The object's map changes at one key, and every earlier root stays readable. |
| TrieStore.TrieObject.Delete | ethereum/trie.py:752-765 | The object's map loses one key; keys above 32 bytes raise, and so does, exactly, a branch that loses its last item; every earlier root stays readable. |
| TrieStore.TrieObject.SetRootHash | ethereum/trie.py:185-193 | Setting the hash of any stored tree takes that tree, and an earlier root brings back exactly the tree it stood for; a missing hash raises. |
| RlpCodec.ConsumeItem | ethereum/fast_rlp.py:51-76 | The prefix of an encoded item tells its kind and delimits it, wherever it stands. |
| RlpCodec.DecodeEncode | ethereum/fast_rlp.py:12-49 | Decoding undoes encoding for every nested item with payloads below 2^64 bytes (Yellow Paper, Appendix B). |
| RlpCodec.EncodeInjective | ethereum/fast_rlp.py:12-36 | No two such items share an encoding. |
| RlpCodec.DecodeOptimized | ethereum/fast_rlp.py:38-49 | The loop over the items of a list computes the recursive decoding. |
| RlpCodec.OptimizedDecodeList | ethereum/fast_rlp.py:89-96 | The flat-list loop computes the list of its strings. |
| RlpCodec.OptimizedAgrees | ethereum/fast_rlp.py:78-96 | On encoded flat lists the fast decoder and the general one return the same strings. |
| FormatLaws.RlpLayout | ethereum/fast_rlp.py:12-35 | Every encoding byte by byte: prefixes from 0x80 and 0xc0, lengths up to 55 in the first byte and others behind it without leading zeros. |
| FormatLaws.LooseLengths | ethereum/fast_rlp.py:51-75 | Decoding also takes lengths with leading zeros, or written out although short. |
| FormatLaws.HexPrefixLayout | ethereum/trie.py:74-97 | The packed form of every path byte by byte. |
| FormatLaws.NodeLayout | ethereum/trie.py:211-222 | The raw form of leaves, extensions and branches, with children inlined if and only if their encoding is shorter than 32 bytes. |
| Words.SignedDivision | ethereum/vm.py:358-365 | SDIV and SMOD truncate toward zero and satisfy dividend = quotient * divisor + remainder, except for -2^255 / -1. |
| Words.SignExtendMeaning | ethereum/vm.py:385-394 | SIGNEXTEND reads the lowest k + 1 bytes as a two's complement number. |
| Words.BitsAddUp | ethereum/vm.py:411-416 | AND, OR and XOR: the first two add up to the operands' sum, the first and the last to the second. |
| Words.ByteOfWord | ethereum/vm.py:419-424 | BYTE picks the byte that MSTORE writes at that place. |
| Words.WordRoundTrip | ethereum/utils.py:63-64 | A stored word is loaded again. |
| World.CallDataIsItsBytes | ethereum/vm.py:43-73 | Reading through the window on the caller's memory is reading the extracted bytes, zero beyond their end. |
| Machine.MemExtendPays | ethereum/vm.py:146-163 | Memory stays a multiple of 32 bytes, and what an extension costs is the difference of 3w + w*w/512. |
| Machine.NoStartInside | ethereum/vm.py:127-144 | Push data never holds an instruction start. |
| Evm.StepGas | ethereum/vm.py:264-334 | Every instruction that goes on costs gas, none but LOG overdraws it, and what calls and creations get is taken from the frame. This is the measure on which the mutual recursion terminates for every code and state. |
| InstructionLaws.SumLaw | ethereum/vm.py:346-351 | ADD, MUL and SUB are congruent to sum, product and difference modulo 2^256; with arguments, fee and failures exact, as in the next ones. |
| InstructionLaws.QuotientLaw | ethereum/vm.py:352-357 | DIV and MOD divide with remainder, and by 0 to 0. |
| InstructionLaws.SignedLaw | ethereum/vm.py:358-365 | SDIV and SMOD truncate two's complement numbers toward zero, with -2^255 by -1 the only quotient that does not fit. |
| InstructionLaws.ModularLaw | ethereum/vm.py:366-371 | ADDMOD and MULMOD reduce the sum and the product before any wrapping. |
| InstructionLaws.ExtensionLaw | ethereum/vm.py:385-394 | SIGNEXTEND reads the lowest bytes as two's complement. |
| InstructionLaws.ExpLaw | ethereum/vm.py:372-382 | EXP of 0 is 1 and each exponent more multiplies once more; the fee counts the bytes of the exponent. |
| InstructionLaws.ComparisonLaw | ethereum/vm.py:396-425 | Comparisons as on integers, the bitwise operations bit by bit, BYTE as a base-256 digit. |
| InstructionLaws.StackLaw | ethereum/vm.py:595-603 | PUSH puts the bytes behind it on the stack, zeros beyond the code, and goes on behind them; DUP, SWAP and POP move exactly the words they name. |
| StateLaws.MemoryLaw | ethereum/vm.py:538-552 | MLOAD reads and MSTORE and MSTORE8 write bytes big-endian, all other bytes stay, and growth costs the difference of the quadratic fees. |
| StateLaws.CopyLaw | ethereum/vm.py:455-513 | The four copies write bytes of input, code, another account's code, or returned data, zeros beyond their end, at 3 a word; only returned data may not be read beyond its end. |
| StateLaws.HashLaw | ethereum/vm.py:427-435 | SHA3 hashes a range of memory at 30 and 6 a word. |
| StateLaws.HaltLaw | ethereum/vm.py:738-751 | STOP, RETURN and REVERT end the frame with a range of memory as output. |
| StateLaws.JumpLaw | ethereum/vm.py:575-588 | Jumps go to a JUMPDEST at an instruction start or end the frame; JUMPI only for a condition other than 0. |
| StateLaws.EnvironmentLaw | ethereum/vm.py:436-534 | What each instruction that reads the message, the block, another account or the frame pushes; CALLDATALOAD byte by byte. |
| StateLaws.LoadLaw | ethereum/vm.py:553-557 | SLOAD pushes a slot of the account at the frame's own address. |
| StateLaws.StoreLaw | ethereum/vm.py:558-574 | SSTORE changes one slot of that account and nothing else but the refund, with its fees. |
| StateLaws.StoredIsLoaded | ethereum/vm.py:553-574 | What one frame stored, every frame at the same address loads, whoever its sender is. |
| StateLaws.StoredElsewhere | ethereum/vm.py:553-574 | At another address or under another key what is loaded does not change. |
| StateLaws.LogLaw | ethereum/vm.py:604-630 | LOG appends one entry with the frame's address, its topics in order and a range of memory; when the unchecked fee is caught. |
| StateLaws.SuicideLaw | ethereum/vm.py:752-768 | SUICIDE moves the whole balance to the heir, or destroys it if that is the account itself. |
| StateLaws.InvalidLaw | ethereum/vm.py:269-273 | Bytes that are no instruction, or not yet one, end the frame. |
| CallLaws.CallLaw | ethereum/vm.py:655-728 | All of a call up to the other frame: failures, surcharges, the gas passed on, the stipend, the message and its input, or 0 on the stack. |
| CallLaws.CalleeSees | ethereum/vm.py:706-723 | A called frame sees the caller as its sender, the account asked for as itself, and value and input given; under DELEGATECALL the caller's own sender, address and value. |
| CallLaws.CreateLaw | ethereum/vm.py:631-654 | CREATE sends a range of memory as code, with all gas or all but a 64th, or pushes 0. |
| CallLaws.RunLaw | ethereum/vm.py:246-340 | A frame goes on step by step; running off the code is success, and a failing step takes all gas. |
| CallLaws.ReturnLaw | ethereum/vm.py:726-737 | After a call: the flag, the gas left, as much output as fits the window, and the whole of it as returned data. |
| CallLaws.CreatedLaw | ethereum/vm.py:643-651 | After a creation: the address or 0, and the gas left. |
| MessageLaws.MessageLaw | ethereum/messages.py:341-377 | An uncovered message succeeds without effect; a failed one leaves the world as it was; any other one runs where its value was moved. |
| MessageLaws.PlainMessage | ethereum/messages.py:341-377 | A message to an account without code moves its value and gives all gas back. |
| MessageLaws.CreationLaw | ethereum/messages.py:380-446 | The new address, the accounts before the code runs, and after it: the returned code is installed at 200 a byte, and each way to fail leaves exactly the raised nonce and the cleared address. |
| MessageLaws.FailedCreation | ethereum/messages.py:380-446 | A failed creation leaves every account as it was, but for the creator's nonce and, at the new address, cleared nonce and code. |
| Isolation.ExecuteIsolated | ethereum/vm.py:246-780 | Over a whole run, with all its calls and creations, an account at which no code runs and that creates nothing keeps storage, code and nonce, and loses no ether. |
| Isolation.ApplyIsolated | ethereum/messages.py:341-377 | The same for messages, but for the value a sender sends. |
| Isolation.CreateIsolated | ethereum/messages.py:380-446 | The same for creations. |
| EvmSafety.OverdraftExample | ethereum/vm.py:604-627 | Ten bytes of code that succeed with -256 gas. |
| Overdraft.ExecuteEndsInLog | ethereum/vm.py:604-627 | A frame that ran off the end of its code behind a LOG, or called one that did, has run code whose last instruction is a LOG, or called such code. |
| Overdraft.NegativeIff | ethereum/vm.py:604-627 | A frame with gas returns less than nothing if and only if it runs off the end of its code and its last step is a LOG whose data costs more than is left, or a call or creation that gave back more debt than the frame had kept. |
| Overdraft.ApplyNegativeIff | ethereum/messages.py:341-377 | A message call does if and only if it gets to run code whose frame does; it reports success and returns no data then. |
| Overdraft.CreateNegativeIff | ethereum/messages.py:380-446 | A creation does if and only if the address is free and running its code does; the code fee neither causes nor hides it. |
| Overdraft.RejectedIff | ethereum/messages.py:184-286 | A transaction that passes the checks is thrown away if and only if its message returns less than nothing, and some code it ran ends in a LOG then. |
| EvmSafety.StaticCallIsStatic | ethereum/vm.py:709-723 | STATICCALL always starts a static message; CALLCODE moves ether from an account to itself. |
| EvmSafety.StaticExecute | ethereum/vm.py:558-562 | A static frame, whatever it calls, leaves balances, nonces, code, storage, logs, refunds and self-destructs unchanged. |
| EvmSafety.StaticApply | ethereum/messages.py:341-377 | EIP-214 for whole message calls. |
| EvmSafety.ApplyDrains | ethereum/messages.py:341-377 | No message call creates ether or makes a balance negative, and ether disappears only with a self-destruct. |
| EvmSafety.CreateDrains | ethereum/messages.py:380-446 | The same for contract creation. |
| Transactions.GasConservation | ethereum/messages.py:201-271 | Gas bought is gas given back plus gas paid for, both non-negative, in success and failure. |
| Transactions.RefundBounds | ethereum/messages.py:246-252 | The refund is at most half of what was used. |
| Transactions.OnlyOverdraftAborts | ethereum/messages.py:184-286 | A transaction that passed the checks is thrown away if and only if the frames below it returned negative gas. |
| TransactionLaws.IntrinsicGasLaw | ethereum/transactions.py:157-164 | The gas for the data is 21000 and 4 for each zero byte and 68 for each other one. |
| TransactionLaws.TransactionLaw | ethereum/messages.py:184-271 | The message is sent after the nonce was raised and all gas bought; then the sender gets back exactly the price of the gas left and earned, the earnings being at most half of what was used, the miner the price of the rest, and self-destructed accounts are wiped. |
| TransactionLaws.TransferLaw | ethereum/messages.py:184-271 | A transfer to an account without code uses the gas for its data, and moves the value and the price of that gas. |
| TransactionLaws.FailedTransactionLaw | ethereum/messages.py:227-236 | A call that fails costs its sender the gas it used and nothing else. |
| TransactionLaws.ValidationLaw | ethereum/messages.py:132-171 | A transaction passes if and only if all conditions hold, and each error says truly what is wrong. |
| TransactionLaws.AppliedLaw | ethereum/messages.py:184-226 | It is applied if and only if it passes, can pay for a creation, and its message returns no negative gas. |
| FastVm.SummaryExact | ethereum/fastvm.py:103-140 | A chunk's minimal stack, maximal stack and gas cost pass if and only if every instruction inside passes its own checks. |
| FastVm.PreprocessCode | ethereum/fastvm.py:103-140 | The preprocessor's loop cuts the code into chunks that are summed up correctly and begin at the entry, at every jump destination and after every chunk. |
| FastVm.Doomed | ethereum/fastvm.py:224-240 | If a chunk's checks fail, the step-by-step interpreter fails too, wherever inside. |
| FastVm.OutsideChunks | ethereum/fastvm.py:224-240 | A jump into push data ends the chunked interpreter with an exception. |
| FastVm.FastRefines | ethereum/fastvm.py:202-240 | From every chunk boundary both interpreters return the same status, gas and data, and on success the same world. |
| FastVm.FastVmRefinesVm | ethereum/fastvm.py:202-728 | The same for whole frames over the supported instructions. |
| FastVmRun.ChunkTurn | ethereum/fastvm.py:224-300 | One turn of the loop over the journaled state decides the frame or leads on to the rest of it, with less gas. |
| FastVmRun.VmExecute | ethereum/fastvm.py:202-728 | The chunked loop over the journaled state returns what the step-by-step interpreter returns. |
| StateJournal.CachedAccount.SetStorageData | ethereum/state.py:110-112 | Writing a slot to the cache changes that slot of the account and nothing else. |
| StateJournal.CachedAccount.Commit | ethereum/state.py:82-90 | Flushing the storage cache into the storage trie changes no slot. |
| StateJournal.UnwindVia | ethereum/state.py:286-291 | Popping the journal down to one height passes through every height between: nested snapshots compose. |
| StateJournal.SetattrBack | ethereum/state.py:212-216 | The journal entry of an attribute write restores the world. |
| StateJournal.SetSlotBack | ethereum/state.py:252-257 | So does that of a storage write. |
| StateJournal.SetCachesBack | ethereum/state.py:421-432 | So does that of a storage reset. |
| StateJournal.State.GetAndCacheAccount | ethereum/state.py:172-198 | Loading an account into the cache changes nothing that can be seen. |
| StateJournal.State.SetAndJournal | ethereum/state.py:212-216 | Changes one attribute of one account and journals the way back. |
| StateJournal.State.SetStorageData | ethereum/state.py:252-257 | Changes one slot of one account, and the journal leads back. |
| StateJournal.State.DelAccount | ethereum/state.py:404-419 | Wipes balance, nonce, code and storage of one account, and the journal leads back. |
| StateJournal.State.TransferValue | ethereum/state.py:362-368 | Moves the value if the balance covers it, or changes nothing. |
| StateJournal.State.Revert | ethereum/state.py:282-299 | Pops the journal to the snapshot: the world is what the entries lead back to, with all parameters of the snapshot; after a commit only an empty-journal snapshot is accepted. |
| StateJournal.State.Commit | ethereum/state.py:374-396 | Afterwards every account is the one described by `Committed`, whichever order the cache is walked in. |
| ComputeState.PreprocessCode | ethereum/vm.py:127-144 | Finds exactly the jump destinations and the pushed words at instruction starts. |
| ComputeState.Compustate.MemExtend | ethereum/vm.py:146-163 | Extends and pays as described, keeping the total paid at 3w + w*w/512 for w words. |
| ComputeState.Compustate.ExtractCopy | ethereum/vm.py:66-73 | The copy loop over the window equals copying the extracted bytes. |
| VmRun.Turn | ethereum/vm.py:264-334 | One turn of the loop over the journaled state is one step of the description, and the PUSH cache always hits. |
| VmRun.StepPlace | ethereum/vm.py:264-341 | A step that goes on stands at an instruction start or past the end, with at most 1024 words on the stack. |
| VmRun.VmExecute | ethereum/vm.py:246-784 | The interpreter loop over the journaled state computes the recursive description, for every code and state. |
| VmRun.RunCall | ethereum/vm.py:655-736 | The four call instructions, with their gas, depth, value and static rules. |
| VmRun.ApplyMsg | ethereum/messages.py:341-377 | Transfer, run and revert over the journal: success, gas, data and state are those described, and a message that fails leaves the state as it was. |
| VmRun.CreateContract | ethereum/messages.py:380-446 | The same for contract creation; one that fails leaves no more than the creator's nonce raised and the new address ready. |
| VmRun.Rollback | ethereum/state.py:278-299 | Reverting to a snapshot after any journaled operations restores the world and the journal of the snapshot. |
| Tracking.ApplyEvolves | ethereum/state.py:212-276 | Whatever a message call does, every account it changes is touched afterwards, or wiped and marked as deleted. |
| Tracking.TransactionEvolves | ethereum/messages.py:184-286 | The same for a whole transaction. |
| Tracking.CommitIs | ethereum/state.py:374-396 | In every world reached so a commit writes a world that depends on the accounts alone, not on what the trie held. |
| Tracking.CommitKeeps | ethereum/state.py:374-396 | A commit keeps every balance, nonce and code; storage is lost exactly by touched accounts without any of them, from Spurious Dragon on. |
| Tracking.CommitTotal | ethereum/state.py:374-396 | A commit keeps the sum of all balances and makes none negative. |
| TxRun.Validate | ethereum/messages.py:132-171 | The checks in their order, those of the fork on the value s and on the network identifier included, without a visible change to the state. |
| TxRun.ApplyTransaction | ethereum/messages.py:184-286 | The transaction over the journaled state has the described outcome, with its commit before Metropolis, receipt, bloom filter, gas counter and index; the sum of balances is conserved across all of it, and the state stays in step with its trie and journal. |
| TxRun.MakeReceipt | ethereum/messages.py:98-110 | The receipt with the root before Metropolis and the status after, its bloom added to the block's, and the index raised, all journaled. |
| TxRun.TransactionConserves | ethereum/messages.py:184-286 | Across a transaction and its commit, in every fork, no ether appears and no balance becomes negative; without self-destructs none disappears. |
| TxRun.CommitInStep | ethereum/state.py:374-396 | From every state reached through the journal a commit gives the described world and a state in step again. |
| TxRun.SlotLost | ethereum/state.py:374-396 | A run in which a contract created before Spurious Dragon loses a slot to a call without value after it. |
| BlockRun.ValidateUncles | ethereum/pow/consensus.py:63-106 | The loops over recent uncles and over the block's uncles find the first error in the order of the checks, or none. |
| Uncles.OnlyPow | ethereum/pow/consensus.py:35-38 | For uncles that break no other rule the first error is the failed assertion of a proof of work, exactly if one of them fails it. |
| BlockRun.ProcessTransactions | ethereum/meta.py:29-31 | The loop over the transactions stops at the first exception, with the world, the gas counter, the bloom filter and the receipts of those before. |
| BlockRun.Finalize | ethereum/pow/consensus.py:110-132 | Rewards are paid through the journal, and only the uncles of six blocks ago are forgotten. |
| BlockRun.FinalizedShare | ethereum/pow/consensus.py:110-127 | Every account gets the sum of its shares as miner and as uncles' miner. |
| BlockRun.TryBlock | ethereum/meta.py:21-37 | The body of the try block: which exception is raised, caught or not, and the state it leaves. |
| BlockRun.RevertTo | ethereum/state.py:282-299 | The revert is refused exactly if the trie changed and entries were journaled before the snapshot; otherwise the world comes back if nothing was committed or nothing was journaled. |
| BlockRun.ApplyBlock | ethereum/meta.py:15-41 | A block is applied, undone, refused to be undone, or escapes, each exactly under its condition on the block, the world and the parameters; the world and the parameters left are given for each, and the head's memory for uncle checks stays good in all. |
| BlockRun.HeadGrown | ethereum/common.py:207-209 | An applied block extends a chain that respects the uncle rules to one that does. |
| BlockRun.HeadKept | ethereum/meta.py:15-41 | A rejected block leaves the head's memory of headers and uncles good enough for the next one. |
| BlockRun.BlockConserves | ethereum/meta.py:15-41 | Over an applied block the sum of all balances grows by at most the rewards, by exactly them when nothing self-destructed, and no balance becomes negative. |
| BlockRun.EmptyBlock | ethereum/meta.py:15-41 | An empty block is applied if and only if its roots are those of the rewarded accounts and of no receipts. |
| BlockRun.Misfit | ethereum/common.py:91-123 | A block with a wrong header is undone. |
| BlockRun.BadUncleSeal | ethereum/pow/consensus.py:35-38 | A block that would be applied but for the proof of work of an uncle is undone with nothing committed. |
| BlockRun.RepeatedEscapes | ethereum/meta.py:38-40 | A block that holds a plain transaction twice escapes, with the first one applied. |
| BlockRun.OrderMatters | ethereum/meta.py:38-40 | On the state it leaves a block with that transaction escapes too, although it is processed without error on the state before. |
| BlockRun.RefusedAfterEscaped | ethereum/state.py:288-299 | A block without transactions that claims to have used gas cannot be undone after such a block. |
| BlockLaws.UncleLaw | ethereum/pow/consensus.py:63-106 | The uncle checks pass if and only if there are at most two uncles, different, fresh and lower, each on top of one of the second to seventh headers below the block, with its number, time, difficulty, gas and proof of work right. |
| BlockLaws.RewardLaw | ethereum/pow/consensus.py:110-132 | Finalising pays the miner the block reward and the nephew rewards, and each uncle's miner an eighth less for each number further back, rounded down; no other balance changes. |
| BlockLaws.EighthLaw | ethereum/pow/consensus.py:125-127 | Of a reward that is a multiple of 8 each number further back costs exactly an eighth. |
| BlockLaws.AcceptedLaw | ethereum/meta.py:15-41 | A block is accepted if and only if its header follows the head, its uncles are good, and its roots, its gas and its bloom filter are those of a run of its transactions, each with its receipt. |
| BlockLaws.CommitmentsUnique | ethereum/common.py:176-192 | On a head state no two accepted blocks differ in nothing but what their headers commit to. |
| BlockLaws.RememberedLaw | ethereum/common.py:207-220 | Which headers, uncles and block parameters the next block sees. |
| BlockLaws.CountedLaw | ethereum/messages.py:255-286 | An applied transaction adds its gas, its receipt, its filter and one to the index; a rejected one nothing. |
| BlockLaws.StartLaw | ethereum/pow/consensus.py:9-18 | A block starts with nothing counted. |
| HeadRun.TryOnHead | ethereum/pow/chain.py:275-287 | `apply_block` on a head state, clean or left changed by blocks tried before, gives the described verdict and leaves the described state, unless a revert across a commit changed it. |
| HeadRun.TryInTurn | ethereum/pow/chain.py:275-287 | After a whole list of blocks tried in turn the verdict on one more is that on the described state they left. |
| HeadRun.CleanStays | ethereum/meta.py:38-40 | On a clean head the list of tried blocks stays empty exactly if the block is not one that escapes, and a block that is undone leaves the state as stored. |
| HeadRun.RivalsExist | ethereum/pow/chain.py:275-287 | With the verdicts of `apply_block`, a block that holds a plain transaction twice and one that holds it once are rivals, of which the order of arrival decides what is stored. |
| Casper.RaiseWalks | ethereum/hybrid_casper/chain.py:128-137 | One turn of the upward walk keeps all subtree scores right but for the one where the walk stands. |
| Casper.ResetSettled | ethereum/hybrid_casper/chain.py:290-291 | Resetting the subtree score of a checkpoint keeps the scores right if and only if it was 0. |
| Casper.SubtreeIsMax | ethereum/hybrid_casper/chain.py:119-138 | The subtree score of every checkpoint but genesis is the greatest score at or below it, and some checkpoint there has it. |
| Casper.PathPassesBest | ethereum/hybrid_casper/chain.py:194-199 | The walk along child pointers passes a checkpoint with the greatest score below its root. |
| Casper.CheckpointBefore | ethereum/hybrid_casper/chain.py:385-404 | Every block but genesis has a previous checkpoint, an epoch back if it is one itself. |
| Casper.NoCheckpointBeforeGenesis | ethereum/hybrid_casper/chain.py:399-401 | For the genesis block the search raises. |
| Casper.Chain.GetPrevCheckpointHash | ethereum/hybrid_casper/chain.py:385-404 | The walk with its memo finds the last checkpoint strictly before a block. |
| Casper.Chain.UpdateSubtreeScoresAndChildPointers | ethereum/hybrid_casper/chain.py:119-138 | After a raised score the walk settles all subtree scores and child pointers again; from wrong scores it ends as well, and no score below its start changes; a child pointer moves only away from a subtree with less. |
| Casper.Chain.StoreBlock | ethereum/hybrid_casper/chain.py:288-291 | A new block, checkpoint or not, leaves scores, pointers and child records right; one received again does if and only if it is no checkpoint with a subtree score above 0. |
| Casper.Chain.AddBlock | ethereum/hybrid_casper/chain.py:282-314 | Storing a block and recording any non-negative score for its previous checkpoint leaves everything settled if and only if the block is new, is no checkpoint, or had the subtree score 0. |
| Casper.Chain.ChooseHeadCheckpoint | ethereum/hybrid_casper/chain.py:194-199 | Terminates at a checkpoint without child pointer, and the path passed the best score at or below the root. |
| Casper.Chain.FindHeaviestPowBlock | ethereum/hybrid_casper/chain.py:174-181 | Returns a descendant of greatest difficulty among all descendants; of several the block itself, or one below the first child that has one. |
| PowChain.Chain.GetScore | ethereum/pow/chain.py:228-244 | The memo is filled upwards; every score is its parent's plus the difficulty plus at most a millionth of it, and no stored score changes. |
| PowChain.Chain.ExtendHead | ethereum/pow/chain.py:275-295 | A block on the head becomes the indexed head with the best score. |
| PowChain.Chain.FindCommonAncestor | ethereum/pow/chain.py:314-328 | Returns the new blocks down to one whose parent is canonical, each on top of the one before. |
| PowChain.Chain.RewriteHeight | ethereum/pow/chain.py:336-378 | Replaces one height of the index, and leaves exactly the transaction entries that are neither the old block's nor missing from the new one's. |
| PowChain.Chain.Reorganise | ethereum/pow/chain.py:314-380 | Afterwards the index is the new head's chain and holds nothing above it, every transaction entry is right, and the entries kept are exactly those described. |
| PowChain.Chain.AddToSide | ethereum/pow/chain.py:298-396 | A side block becomes the head if and only if its score is greater, and then the head state is as stored; otherwise the index and the head state stay. |
| PowChain.Chain.Accept | ethereum/pow/chain.py:273-410 | Storing a block that was applied keeps blocks, index, scores, children and transaction entries consistent, whatever state it was applied to. |
| PowChain.Chain.Reject | ethereum/pow/chain.py:279-287 | A rejected block changes nothing but, if it escapes on the head, the head state. |
| PowChain.Chain.Serve | ethereum/pow/chain.py:443-446 | The recursion over waiting blocks terminates and serves all of them, for any queue; those that are early now are delayed. |
| PowChain.Chain.AddBlock | ethereum/pow/chain.py:261-447 | Keeps the invariant in any arrival order; true exactly for a block that is not early, fits its stored parent and is applied there, on the head to the head state as rejected blocks have left it; a rejected or early block changes no index; every block met is received or delayed afterwards. |
| PowChain.Chain.ProcessTimeQueue | ethereum/pow/chain.py:249-258 | At any new time no block is lost; every delayed block that is due is processed, unless the clock was set back to before a block that waits for its parent. |
| PowChain.Chain.CanonicalChain | ethereum/pow/chain.py:198-203 | Between calls `block:n` is the head's ancestor at every height up to the head and absent above. |
| PowChain.Chain.BestHead | ethereum/pow/chain.py:313 | Between calls no stored block has a greater score than the head, and no queued block waits for a stored parent. |
| PowChain.ScoreIsWork | ethereum/pow/chain.py:228-244 | A score is the sum of the difficulties below, and at most a millionth more. |
| PowChain.Chain.MostWork | ethereum/pow/chain.py:313 | Between calls no stored block has more work below it than the head, but for a millionth. |
| PowChain.Chain.StoresAllItCan | ethereum/pow/chain.py:398-446 | Between calls, unless a block escaped on the head, every received block that is acceptable on a stored parent is stored, and nothing else is; only blocks that escape on the state stored for their parent can be the first to do so. |
| PowChain.ArrivalOrderIrrelevant | ethereum/pow/chain.py:398-446 | Two chains that received the same blocks, in whatever order, store the same blocks, if none escaped on the head. |
| PowChain.NoneEscapes | ethereum/pow/chain.py:275-287 | None does if no received block escapes on the state stored for its parent, which does not depend on the order. |
| PowChain.OrderMatters | ethereum/pow/chain.py:275-287 | With one that does, and leaves behind what keeps another one out, two orders of the same two blocks store different ones. |
| PowChain.KeptIff | ethereum/pow/chain.py:336-378 | A transaction keeps its entry through a reorganisation if and only if a new block holds it and no replaced block above does, or it had one and no replaced block held it. |
| PowChain.MovedDownLosesEntry | ethereum/pow/chain.py:343-371 | A transaction that moves to a lower height loses its entry. |
| Uncles.AcceptKeepsSafe | ethereum/pow/consensus.py:63-106 | If no uncle of a chain is included twice, none is an ancestor of its includer and all are one to six numbers below it, the same holds with one more accepted block. |
| Uncles.CandidatesValidate | ethereum/pow/consensus.py:42-60 | A block built on the candidates passes the whole uncle validation. |
| Uncles.GetUncleCandidates | ethereum/pow/consensus.py:42-60 | Returns up to two distinct candidates, and fewer only if every eligible child was taken; no nearer one is passed over. |
| Uncles.RewardBounds | ethereum/pow/consensus.py:125-127 | An uncle reward is positive, below the block reward and no greater further back, for block rewards from 4 wei on; below that it can be 0. |
| Uncles.SharesPositive | ethereum/pow/consensus.py:121-127 | In an accepted block exactly the uncles' coinbases get an uncle reward. |
| Uncles.MkPoststateOfBlockhash | ethereum/pow/chain.py:117-157 | Headers and uncles rebuilt from stored blocks and the genesis snapshot serve the uncle checks as well as those kept along the chain. |
| Queue.HeapPush | ethereum/transaction_queue.py:32-35 | Keeps the heap order and adds one item. |
| Queue.HeapPop | ethereum/transaction_queue.py:37-54 | Takes the top, keeps the heap order and every other item. |
| Queue.TransactionQueue.AddTransaction | ethereum/transaction_queue.py:32-35 | Queues a transaction with its priority and a counter that no queued one has. |
| Queue.TransactionQueue.PopTransaction | ethereum/transaction_queue.py:37-54 | The returned transaction fits, passes the price limit and is ahead of every other one in both heaps that fits, by priority and age; the queue loses exactly it; None means that nothing fits, that the first one that fits is too cheap, or that the seek depth is used up. |
| Queue.ForceIsLostAside | ethereum/transaction_queue.py:37-54 | A forced transaction is popped first at once, but after a pop that set it aside another one with a higher gas price is. |
| Abi.SIntRoundTrip | ethereum/abi.py:188-404 | Two's complement of every integer in range decodes to it. |
| Abi.SingleRoundTrip | ethereum/abi.py:745-778 | Every single value decodes to itself, fixed-size byte strings filled up, and static ones take 32 bytes. |
| Abi.EncodedSize | ethereum/abi.py:668-681 | The encoding of a static value has the computed size. |
| Abi.ValueRoundTrip | ethereum/abi.py:683-722 | Nested arrays without dynamic elements and dynamic values decode to themselves, fixed-size byte strings filled up. |
| Abi.ByteStringsBack | ethereum/abi.py:683-687 | For byte strings without a size, whatever brackets follow, no list is encoded, and every byte string comes back. |
| Abi.EncodeValue | ethereum/abi.py:683-722 | The recursion with its loop over the elements, and offsets for dynamic ones, computes the encoding; byte strings without a size go before the brackets. |
| Abi.StartsAt | ethereum/abi.py:788-835 | The start positions filled in backwards delimit each argument's data. |
| Abi.AbiDecodes | ethereum/abi.py:725-861 | In any argument list that can be encoded every argument comes back as it does on its own, or the decoding raises because one does. |
| Abi.EncodeArguments | ethereum/abi.py:725-742 | The loop with head, tail and offsets computes the encoding. |
| Abi.DecodeArguments | ethereum/abi.py:781-821 | The loops with outputs and start positions compute the decoding. |
| AbiArrays.FixedNeverBack | ethereum/abi.py:834-849 | A fixed array with dynamic elements never comes back: its first offset is read as its length. |
| AbiArrays.ManyNeverBack | ethereum/abi.py:834-849 | An open array of two or more dynamic elements never comes back. |
| AbiArrays.OneNeverBack | ethereum/abi.py:834-849 | Nor does one of one element whose own elements are dynamic. |
| AbiArrays.InnerArrayBack | ethereum/abi.py:683-849 | An open array of one open array comes back with 32 inner elements, if at all. |
| AbiArrays.NestedBack | ethereum/abi.py:683-849 | It comes back as it was if and only if it had 32 inner elements, each encoded as the number 32 in every word. |
| AbiArrays.RepeatedBack | ethereum/abi.py:683-849 | There is such a value. |
| AbiArrays.ReturnedIff | ethereum/abi.py:683-861 | A value comes back as it was exactly if it meets the condition for its type. |
| AbiArrays.AbiRoundTrip | ethereum/abi.py:725-861 | The list comes back exactly if and only if every value meets the condition: fixed-size byte strings have their full size, and arrays with dynamic elements are open and empty, or the one exception. |
| FormatLaws.SingleLayout | ethereum/abi.py:188-404 | Every encoded value byte by byte: big-endian numbers, two's complement, zeros behind byte strings and in front of hashes, lengths in front of byte strings without a size. |
| FormatLaws.SingleReading | ethereum/abi.py:745-778 | What any 32 bytes are read as. |
| FormatLaws.FilledLayout | ethereum/abi.py:745-778 | A short byte string comes back with zeros behind it, everything else as it was. |
| FormatLaws.ArrayLayout | ethereum/abi.py:683-722 | The length of an open array, then its elements one after the other, or behind a word for each that tells where it starts. |
| FormatLaws.ArgumentLayout | ethereum/abi.py:725-742 | The head with values and start positions, and the tail in the order of the arguments. |
| Compression.CompressBytes | ethereum/compress.py:8-27 | The loop computes the compression. |
| Compression.DecompressBytes | ethereum/compress.py:30-47 | The loop computes the decompression, or fails on a trailing escape. |
| Compression.RoundTrip | ethereum/compress.py:8-47 | Decompressing undoes compressing, across escapes, zero runs and null hashes, if and only if a zero byte is written as itself or zero bytes come in pairs. |
| Compression.LoneZeroLost | ethereum/compress.py:25 | When a zero byte is written as nothing, a single zero is lost. |
| FormatLaws.CompressionLayout | ethereum/compress.py:30-47 | What each escape stands for, and that any other byte stands for itself. |
| FormatLaws.HashLaw | ethereum/compress.py:15-17 | The hash of the empty string is written as two bytes. |
| FormatLaws.ZeroRunLaw | ethereum/compress.py:18-23 | A run of two to 255 zeros is written as two bytes. |

## Left out

Inputs of the model:

- Hash functions are parameters; where it matters they are taken to be injective. A digest and an inlined node are different
  constructors of a raw item, so a 32-byte string that happens to be a stored digest is not confused with one.
- Precompiled contracts are a parameter that returns between 0 and the supplied gas. Whether the sender of a transaction can
  be recovered from its signature is a flag. Block hashes and contract addresses are functions of the environment.
- The bytes `int_to_big_endian` writes for 0 are a parameter of the EXP fee and of compression.
- Header checks other than parent hash and number, difficulty calculation and proof of work are parameters or flags. In
  PowChain the verdict of `apply_block` is a function of the block and of what was tried on the head state since one escaped,
  which `HeadRun.Realizes` ties to the state of BlockRun; once a block was applied to a changed head state, the head state
  counts as changed until a reorganisation replaces it. Once a revert across a commit changed the head state, or was refused,
  the verdicts in PowChain are not tied to it any more.
- The score the Casper contract reports is any non-negative number. Casper blocks have a stored parent.

Not modelled:

- Trie: the `deletes` list and reference-count pruning, `_split` and `_merge`, `clear`, key iteration and size. Node lists
  are values: that a list could be shared between two nodes while one of them is assigned into is not captured, nor that a
  delete whose assertion fails may have assigned into the list of the root node.
- State: the touched-account workaround for blocks 2675000 to 2675200 (state.py:284-299), account caches on disk, JSON
  snapshots but for the uncles of the genesis snapshot, and headers older than the genesis in it. The transfer at the DAO
  fork. The two closures that `reset_storage` journals are one entry. Account tries are maps.
- EVM: tracing and logging, EIP 86 validation, and a non-zero initial nonce. BALANCE, CALLDATASIZE,
  CODESIZE, EXTCODESIZE, RETURNDATASIZE, PC, MSIZE and GAS push their values reduced to a word, where the program pushes them
  as they are. How a bloom filter is made from logs.
- fastvm: EXP, SHA3, calls, logs and the other instructions outside `FastVm.Supported`, where the two interpreters differ on
  purpose or by accident.
- PowChain: `prevhash in self.env.db` (ethereum/pow/chain.py:298) also holds for the keys of trie nodes and of code, where
  rebuilding the parent's state then raises; the model takes such a parent for a missing one. Deletion of old change logs
  (`max_history`), the `address:` and `changed:` entries, the commit to disk, and callbacks.
- Casper: `get_shared_parent_cp`, reorganisation of the proof-of-work head, validator messages and the contract itself.
- ABI: fixed-point numbers, normalisation of addresses and of text, function selectors, events.
- Queue: `peek` and `diff`. The library heap is modelled by a binary heap.
- RLP: sedes other than strings and lists of them.

Deliberately weaker:

- AbiArrays.AbiRoundTrip: gives no condition for open arrays of dynamic elements whose innermost elements have no size at all
  (arrays of the fixed length 0).
- TxRun.TransactionConserves: says nothing about how much ether a self-destruct removes.
- PowChain.Chain.AddBlock: does not tell which head the recursion over waiting blocks ends with; `PowChain.Chain.BestHead`
  gives its score.
- PowChain.Chain.ProcessTimeQueue: does not tell which due blocks are left when a waiting block is early at the new time.
