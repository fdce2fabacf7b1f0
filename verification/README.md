# Verified model of the binary translator and its benchmarks

The repository holds a static binary translator (`sbt/`), which turns RV32 guest code into
LLVM basic blocks, and benchmark programs (`mibench/`) that it is exercised on. This project
models the hard cores of both in Dafny and proves what they are for.

## The translator

* `SortedMap` is the sorted vector that indexes the blocks; `Guest` is the instruction set
  (section 2.5 of the RISC-V Unprivileged ISA and the integer instructions around it) as a
  step function on registers and memory; `Host` is a small block language in the place of
  LLVM: ordered instructions, at most one terminator, blocks with an identity.
* `Numbers` says what operations on words are as numbers and bits: addition modulo 2 to the
  32nd, order, every bit of a shift. `GuestLaws` gives each guest instruction a meaning in those
  terms (`AluStep`, `LoadStep`, `StoreStep`, `ControlStep`), apart from the functions that the
  step function and the emitted code share.
* `CodeBuilder` is the shared builder and the block that is cut in place; `Emission` holds
  the code emitted for each instruction, transfers of control included, proved to do what
  the guest instruction does.
* `BlockGraph` is the theory of the graph under construction: what holds while the front of
  the translation moves (`Building`), what a finished graph is (`Finished`), and the proof
  that a finished graph simulates the guest in both directions (`Simulation`).
* `Translation` is the translator of one function as a class: forward jumps make blocks
  ahead, backward jumps cut blocks in place, data words that ask for a label are patched
  (`Shadow`), and blocks can be handed over to another function. Every method keeps the
  invariant of `BlockGraph`; `Translate` ends with a finished graph, `Simulates` is the
  theorem about it. `Tables` follows runs through computed jumps that go on at labels, and
  `TablesSimulate` is the theorem about those.
* `Registers` has local register files: copies made where functions meet, in LOCALS and in
  ABI mode. `LocalsCall` is equality with the one global file for every call tree;
  `AbiSound` and `AbiExact` are the results under the calling convention, stated as a fact
  about runs. `RegisterCode` is the code that inserts and later removes the copies;
  `RegisterLimits` holds three programs that show why each hypothesis is there, and
  `RegisterProbes` two for every register that show what ABI mode hands over: a value passed in
  the register arrives if and only if the convention makes it an argument, a value left in it
  comes back if and only if it is a result. The
  hypotheses `KeepsSp`, `FloatsOk` and `StepConvention` are sufficient and not necessary:
  whether a missing copy is ever seen depends on the whole program. Of floats, `FloatsShow`
  has the part that does not: a call that changes one comes out wrong.
* `Relocation` is the relocation cursor with the pairs of a call and the arithmetic of the
  two halves of an address; `PrintfBreak` is the pass that breaks long calls of printf.

## The benchmarks

* `Patricia`, `PatriciaMasks`: the trie with links that lead back up, described by a ghost
  tree; inserting keeps its invariant and searching finds exactly what is stored. The masks
  of a key are a list in order, into which an insertion merges one more. `PatriciaLaws` has the
  bits that the trie tests.
* `Dijkstra`: the label-correcting search over a queue; it ends, its labels are least path
  costs, and its predecessors lead back to the start. The proof goes level by level: the
  queue never holds items more than one edge apart.
* `StringSearch`: three skip-table searches against one leftmost-match specification.
* `AesTables`, `AesField`, `AesCipher`, `Aes`, `AesFile`: table-driven AES. The look-ups are
  the steps of FIPS 197, the key schedule is that of its section 5.2, the decryption
  schedule realises the equivalent inverse cipher of section 5.3.5, decryption inverts
  encryption, and a file comes back out of its container at every length. `AesLaws` has each
  step by the formulas of the standard (the substitution table as inverses in the field), and
  `AesExample` the example of its appendix C.1.
* `Words`, `Blowfish`, `BlowfishModes`: the unrolled Feistel network is the published
  algorithm and undone by reversing its round keys; CBC, CFB64 and OFB64 give every message
  back, and the stream modes give the same bytes however the calls are cut. `BlowfishLaws` says
  how the round function answers to every change in its tables, and what the network does
  without it.
* `Sha`: streaming and padding (section 5.1.1 of FIPS 180-4) as one fold over the padded
  message; the schedule has no rotation, since `USE_MODIFIED_SHA` is not defined. `ShaLaws` has
  the functions bit by bit, the constants as roots, and that neither a round nor the schedule
  forgets anything; `ShaExample` is the digest of "abc".
* `Isqrt`: the digit-by-digit square root in 32-bit words, and exactly which arguments it is
  right for.
* `Basics`, `Bytes`, `WordLaws` and `Files` are shared: words and their arithmetic, exclusive or
  on bytes, the bytes of a word, and files with a bounded device.

## Where the code and its comments differ

* `usqrt` (mibench/automotive/basicmath/isqrt.c:11-17) promises the scaled root of every
  argument. The words wrap around in the last two rounds for some: 0x10000001 is the first
  argument with a wrong last bit (`Isqrt.FirstWrong`), and `Isqrt.RightExactlyWhen` has the
  exact condition for all arguments, in roots of the argument.
* `syncFRegs` off (sbt/Function.cpp:552-557) lets a float register that a function writes
  stay in its local file: `Registers.FloatsShow` for every call that changes one, and
  `RegisterLimits.FloatsNeeded` for one such function.
* Removing the copies of untouched registers (sbt/Function.cpp:182-223) can take away the
  copy of sp from a function that makes calls but never names sp, which ABI mode then needs:
  `RegisterLimits.SpNeeded`. `AbiSound` asks for that copy.
* Under a convention that only speaks of results, a call in ABI mode may fail to return
  although it returns on one register file: `RegisterLimits.LoopDiverges`. With the
  convention kept step by step it returns exactly when the other does: `AbiExact`.
* `updateNextBB` (sbt/Function.h:201-205) looks like a minimum; its condition is always
  true, and it assigns.
* The key 0x80000000 is the one key that reaches `pat_insert`'s bit search without a
  differing bit inside the word (mibench/network/patricia/patricia.c:178-181):
  `Patricia.Trie.DiffInWord` is the exact condition.
* Merging a mask into the list of a key never ends when the full mask 0xffffffff is in the
  list already (mibench/network/patricia/patricia.c:149-160), since the loop marks the new
  mask as copied by making it the full one: `PatriciaMasks.EndsExactlyWhen` is the exact
  condition.
* A computed jump in the translated function goes to the sum as it is, where the instruction
  set clears the lowest bit (sbt/Instruction.cpp:1403-1409): runs through jump tables agree
  if and only if the guest never comes to a computed jump with an odd sum
  (`Translation.Function.TablesSimulate`). `Tables.OddDiffers` has a program with one.
* `sha_update` (mibench/security/sha/sha.c:145-162) puts the bytes left over by a call over
  those an earlier call left. `Sha.RightExactlyWhen`: calls of given lengths
  compress exactly the padded message, whatever its bytes, if and only if every length but the
  last one that is not zero is a multiple of 64;
  `Sha.TwoBytes` is the shortest message that comes out wrong.
* 9999 is both the mark for a node that is not reached and a possible cost
  (mibench/network/dijkstra/dijkstra_large.c:126-133). `Dijkstra.RightExactlyWhen`: labels
  that are least costs exist if and only if no node's least cost is 9999, and then
  `Dijkstra.ShortestPath.Search` finds them, whatever other paths cost. Edges of cost up to
  100 are always safe (`Dijkstra.CheapUnmarked`, `UpToHundred`), 5000 and 4999 in a row are not
  (`Dijkstra.TwoInARowFails`).
* An empty pattern makes `strsearch` answer null although it occurs everywhere
  (mibench/office/stringsearch/pbmsrch_small.c:43-68): `StringSearch.TableSearch.Search`
  meets the leftmost specification if and only if the pattern is not empty.
* `decfile` does not notice a container that ends after the vector, and ignores a broken
  last block (mibench/security/rijndael/aesxam.c:172-195): `AesFile.DecFile` says what
  comes of each.
* Blocks that are handed over to another function keep the host function they were made in
  (sbt/Function.cpp:392-437): `Translation.Function.TransferBBs`.

## Model

| member | source | states |
|---|---|---|
| SortedMap.AsMap | sbt/Map.h:182-183 | the association a sorted vector of items denotes, which is unique |
| SortedMap.AsMapInsert | sbt/Map.h:187-193 | merging a new item into a sorted vector adds exactly that association and keeps the order |
| SortedMap.AsMapReplace | sbt/Map.h:102-104 | replacing the value of an item in place changes exactly that association |
| SortedMap.AsMapPrefix | sbt/Map.h:177-180 | cutting the vector at the lower bound of a key keeps exactly the associations below the key |
| SortedMap.InplaceMerge | sbt/Map.h:190-192 | merging the item at the end into the sorted rest puts it at its lower bound and moves nothing else out of order |
| SortedMap.Map.LowerBound | sbt/Map.h:151-156 | binary search finds the first item whose key is not below the key asked for |
| SortedMap.Map.Lookup | sbt/Map.h:203-216 | the item of a key is found if and only if the map has it, with its value |
| SortedMap.Map.Insert | sbt/Map.h:188-193 | a key that is not there is added, and the vector stays sorted |
| SortedMap.Map.Upsert | sbt/Map.h:90-107 | afterwards the key has the new value and every other key the old one |
| SortedMap.Map.EraseFrom | sbt/Map.h:177-180 | exactly the keys from the position on are gone |
| CodeBuilder.BasicBlock.AddInstr | sbt/BasicBlock.h:101-104 | the block has one entry for the address, in its place in address order, and every other entry as before |
| CodeBuilder.BasicBlock.Split | sbt/BasicBlock.cpp:64-135 | the block keeps its identity and the code above the cut, branches to a new block that has exactly the code from the cut on, and the instruction map is cut at the same place |
| CodeBuilder.Builder.LoadX | sbt/Builder.h:74-84 | the value read is the register of the machine the code so far leaves, and x0 reads as zero |
| CodeBuilder.Builder.StoreX | sbt/Builder.h:94-110 | the code so far now leaves the machine with the register written, and writes to x0 are dropped |
| Emission.TranslateALUOp | sbt/Instruction.cpp:377-523 | the emitted code does in every machine what the guest operation does, the shortcuts for move, negation and complement included |
| Emission.HostAluMeans | sbt/Instruction.cpp:425-512 | the host operations chosen, shifts masked to five bits, compute the guest's results |
| Emission.TranslateUI | sbt/Instruction.cpp:584-607 | the emitted code puts the shifted immediate, or the pc plus it, into the destination |
| Emission.TranslateLoad | sbt/Instruction.cpp:625-691 | the emitted code loads the bytes at the address, extended with or without sign |
| Emission.TranslateStore | sbt/Instruction.cpp:693-739 | the emitted code changes exactly the bytes the guest store changes |
| Emission.TranslateCond | sbt/Instruction.cpp:1045-1073 | the flag computed is not zero exactly when the guest's branch condition holds |
| Emission.CondBrImplements | sbt/Instruction.cpp:1309-1400 | a conditional branch on that flag goes where the guest goes, in every machine |
| Emission.IndirectImplements | sbt/Instruction.cpp:1403-1409 | a computed jump leaves for the sum the guest jumps by |
| Numbers.AddIsSum | sbt/Instruction.cpp:471-474 | the sum of two words stands for the sum of their numbers modulo 2 to the 32nd |
| Numbers.SubIsDifference | sbt/Instruction.cpp:508-510 | and the difference for the difference of the numbers |
| Numbers.LessIsBelow | sbt/Instruction.cpp:491-497 | one word is below another if and only if its number is |
| Numbers.SameNumber | sbt/Instruction.cpp:471-515 | different words stand for different numbers |
| GuestLaws.AluMeans | sbt/Instruction.cpp:471-515 | every ALU operation gives the result it is named for, by a reference in numbers and bits that does not use it; a shift takes its amount modulo 32 |
| GuestLaws.AluDetermined | sbt/Instruction.cpp:471-515 | and no other word has that meaning |
| GuestLaws.HoldsMeans | sbt/Instruction.cpp:1045-1073 | the condition of a branch compares the numbers, with or without sign |
| GuestLaws.AluStep | sbt/Instruction.cpp:377-523 | an ALU instruction leaves that result in its register, every other register and memory as they were, and goes on |
| GuestLaws.UpperStep | sbt/Instruction.cpp:584-607 | the destination holds the immediate moved up by twelve bits, or the number of the address plus it |
| GuestLaws.LoadStep | sbt/Instruction.cpp:625-691 | the destination holds the bytes at the sum of the numbers, lowest first, with zeros or the sign above them |
| GuestLaws.StoreStep | sbt/Instruction.cpp:693-739 | the lowest bytes of the register are at the sum, and every other byte and the registers are as they were |
| GuestLaws.ReadAfterWrite | sbt/Instruction.cpp:625-739 | a load after a store to the same address gives back the bits stored |
| GuestLaws.ControlStep | sbt/Instruction.cpp:1309-1409 | a transfer of control leaves the machine alone and goes where its offset or its sum says; only the jump through ra with no offset returns |
| BlockGraph.AddBlock | sbt/Function.h:101-107 | making a block ahead of the front keeps the invariant of the graph |
| BlockGraph.SplitCurrent | sbt/BasicBlock.cpp:118-134 | cutting the block that is being filled keeps the invariant: each half has exactly the addresses up to the next block |
| BlockGraph.SplitEarlier | sbt/Instruction.cpp:1359-1371 | cutting an earlier block at a backward target keeps the invariant |
| BlockGraph.CommitInstruction | sbt/Function.cpp:296-311 | moving the front past a translated instruction keeps the invariant |
| BlockGraph.SwitchBlock | sbt/Function.cpp:258-276 | going on in the block that starts at the front keeps the invariant |
| BlockGraph.SplitPoint | sbt/BasicBlock.cpp:69-79 | the cut that the instruction map names is the one between the code before the target and the code from it on |
| BlockGraph.FinishBuilding | sbt/Function.cpp:149-179 | when the front reaches the end, every block holds exactly the addresses from its key to the next, and every place control can go to is a block |
| BlockGraph.StraightLine | sbt/Function.cpp:237-311 | the code of consecutive plain instructions does what the guest does over as many steps |
| BlockGraph.RunBlock | sbt/Function.cpp:237-311 | one finished block does what the guest does over its instructions, and leaves for the block of the guest's next pc |
| BlockGraph.HostFollowsGuest | sbt/Function.cpp:226-315 | when the guest run ends, the host run ends in the same way in no more steps |
| BlockGraph.GuestFollowsHost | sbt/Function.cpp:226-315 | when the host run ends, the guest run ends in the same way |
| BlockGraph.Simulation | sbt/Function.cpp:226-315 | from every block start and in every machine, the guest run ends with given registers, memory and way of leaving if and only if the host run does |
| Shadow.ShadowImage.AddPending | sbt/ShadowImage.cpp:126-139 | one more word waits for the label, after those that wait already |
| Shadow.ShadowImage.Patch | sbt/ShadowImage.cpp:163-191 | exactly the waiting words of the label become the address of the block, all other words stay, and the label waits no longer |
| Translation.Function.FindBB | sbt/Function.h:148-154 | the block of an address, or null when there is none |
| Translation.Function.LowerBoundBB | sbt/Function.h:159-165 | the first block at or after an address, or null |
| Translation.Function.GetBackBB | sbt/Function.h:170-187 | the last block at or before an address, or the first block when the address precedes all |
| Translation.Function.NextBBAddr | sbt/Function.h:192-198 | the first block start after an address, or the invalid address |
| Translation.Function.UpdateNextBB | sbt/Function.h:201-205 | the next block start is replaced, whatever it was |
| Translation.Function.AddBB | sbt/Function.h:112-116 | the map gains exactly this block and the layout keeps address order |
| Translation.Function.NewBB | sbt/Function.h:101-107 | a fresh empty block at the address, placed in address order |
| Translation.Function.CutBB | sbt/BasicBlock.cpp:64-135 | the map and the graph gain the lower half at the target, the upper half keeps its key, all references stay right |
| Translation.Function.SplitBB | sbt/Instruction.cpp:1359-1366 | cutting a block at the code of an instruction changes the graph into its two halves and nothing else |
| Translation.Function.ForwardBB | sbt/Instruction.cpp:1327-1342 | the block of a forward target, made when it is not there, under the invariant |
| Translation.Function.BackwardBB | sbt/Instruction.cpp:1344-1372 | the block of a backward target, cut out of the block that holds it when need be, under the invariant |
| Translation.Function.HandleJump | sbt/Instruction.cpp:1309-1400 | after a jump the current block ends in a branch to the blocks of the target and, if conditional, of the next address; the graph is still right |
| Translation.Function.TranslateInstr | sbt/Instruction.cpp:916-1105 | the code of the instruction at the front implements it in every machine and the graph stays right |
| Translation.Function.Commit | sbt/Function.cpp:297-297 | the front moves past the instruction and the invariant holds again |
| Translation.Function.SwitchTo | sbt/Function.cpp:266-276 | the block left behind falls through to the new one unless it is terminated, and filling goes on there |
| Translation.Function.EnterBlock | sbt/Function.cpp:258-276 | at the next block start the block is found or made and entered, and the next start after it is noted |
| Translation.Function.ProcessPending | sbt/ShadowImage.cpp:142-195 | a label words wait for gets a block of its own that starts at it, the words hold that block, and it is noted as a destination |
| Translation.Function.TranslateStep | sbt/Function.cpp:237-312 | one turn of the loop keeps everything known before an instruction, one instruction further |
| Translation.Function.TranslateInstrs | sbt/Function.cpp:226-315 | the loop ends at the end of the function with the invariant, all waiting labels patched and all computed jumps noted |
| Translation.Function.ProcessIndirectBranches | sbt/Function.cpp:141-146 | every computed jump has every noted block as a destination |
| Translation.Function.DropEmpty | sbt/Function.cpp:168-174 | an empty last block is taken out of the function and nothing else |
| Translation.Function.Finish | sbt/Function.cpp:149-179 | the function is complete: a return is added exactly when the current block has no terminator, tables and destinations are right, and the graph is finished when the last instruction does not fall through |
| Translation.Function.Translate | sbt/Function.cpp:40-73 | from a function without blocks to a finished graph in address order, with the entry first and every jump table patched |
| Translation.Function.Simulates | sbt/Function.cpp:226-315 | the finished host function returns or leaves if and only if the guest function does, with the same registers, memory and sum of a computed jump |
| Translation.Function.TableJump | sbt/ShadowImage.cpp:126-195 | a patched word names the block of the function that starts at its label, and every computed jump can go to it |
| Translation.Function.TablesLoaded | sbt/ShadowImage.cpp:126-195 | every word that asks for a label is loaded as the address of that label, and the destinations of the computed jumps are exactly the labels that words ask for |
| Translation.Function.TablesSimulate | sbt/Function.cpp:141-146 | runs that go on through the tables end in the same ways on both sides if and only if the guest never comes to a computed jump with an odd sum |
| Tables.HostThroughTables | sbt/Instruction.cpp:1403-1409 | without an odd sum on the guest's way the host's run through any number of table jumps is the guest's |
| Tables.HostStrays | sbt/Instruction.cpp:1403-1409 | with an odd sum on the guest's way the host ends at an odd address |
| Tables.GuestThroughTables | sbt/Instruction.cpp:1403-1409 | when the host's run through the tables ends, the guest's ends in the same way or had an odd sum on its way |
| Tables.TableSimulation | sbt/Instruction.cpp:1403-1409 | through the tables both sides end in the same ways if and only if the guest never comes to a computed jump with an odd sum |
| Tables.OddDiffers | sbt/Instruction.cpp:1403-1409 | a jump to a register that holds 1: the guest leaves for address 0, the finished host function for address 1 |
| Translation.Function.TransferBBs | sbt/Function.cpp:392-437 | the blocks at or after the address go over and the others stay, none lost or doubled, and all keep the host function they were made in; the receiver learns the first start after the address, and is as new when it was given none |
| Registers.CopyAllAt | sbt/Function.cpp:566-569 | copying a list of registers one by one copies exactly those |
| Registers.LocalsRun | sbt/Instruction.cpp:1118-1151 | from any point of a function, a run on local files, with copies at calls and returns, ends in the same global state as the run on one file |
| Registers.LocalsCall | sbt/Function.cpp:531-621 | in LOCALS mode every call, however deep it recurses, leaves the same global registers and memory as on one file, before and after the removal of copies, when floats are synchronised or no instruction touches one |
| Registers.FloatsShow | sbt/Function.cpp:552-615 | without float synchronisation every call that changes a float register comes out wrong, in either mode |
| Registers.AbiRun | sbt/Function.cpp:440-528 | in ABI mode, under the convention, what a run returns is what the guest run returns in a0, a1, fa0, fa1 and memory |
| Registers.AbiSound | sbt/Function.cpp:440-528 | every ABI-mode call that returns gives the results of the call on one register file |
| Registers.AbiFollows | sbt/Function.cpp:440-528 | under the convention kept step by step, the ABI-mode run returns when the guest run does |
| Registers.AbiExact | sbt/Function.cpp:440-528 | under that convention a call returns in ABI mode if and only if it returns on one file, with the same results |
| Registers.StepIsConvention | sbt/Function.cpp:440-528 | the convention kept step by step is a case of the convention on results |
| Registers.CopiesAreConvention | sbt/Function.cpp:440-528 | the registers copied in ABI mode are exactly the arguments ra, sp, a0 to a7, fa0 to fa7 on the way in and the results a0, a1, fa0, fa1 on the way out |
| RegisterProbes.PassedExactly | sbt/Function.cpp:440-528 | for every register: a callee gets what its caller put there, whatever local files start with, if and only if it is an argument register |
| RegisterProbes.ReturnedExactly | sbt/Function.cpp:440-528 | for every register: a caller gets what its callee left there if and only if it is a result register, and otherwise keeps its own value |
| RegisterCode.Emitter.SyncRegisters | sbt/Function.cpp:531-611 | the copies made at a point are exactly those of the registers that are synchronised there |
| RegisterCode.Emitter.HandleCall | sbt/Instruction.cpp:1118-1151 | link, store, call, load, and for a tail call a return, with the lists of each point |
| RegisterCode.Emitter.Translate | sbt/Function.cpp:573-621 | the code of a whole function has the right copies everywhere, and the registers touched are exactly those noted |
| RegisterCode.Emitter.CleanReg | sbt/Function.cpp:187-217 | all copies of one register are gone and those of all others are left |
| RegisterCode.Emitter.CleanRegs | sbt/Function.cpp:182-223 | the copies left are those of the touched registers, which is what the theorems on local files ask for |
| RegisterLimits.FloatsNeeded | sbt/Function.cpp:552-557 | a function of one instruction for which LOCALS mode without float copies differs from one global file |
| RegisterLimits.LoopDiverges | sbt/Function.cpp:440-528 | a program that keeps the convention and returns on one file but not in ABI mode |
| RegisterLimits.LoopConvention | sbt/Function.cpp:440-528 | that program keeps the convention on results |
| RegisterLimits.SpNeeded | sbt/Function.cpp:182-223 | a program that keeps the convention step by step and gives another result once the copy of sp is removed |
| Relocation.SBTRelocation.NextReloc | sbt/Relocation.cpp:42-59 | the cursor moves to the next entry that is not RELAX |
| Relocation.SBTRelocation.NextPReloc | sbt/Relocation.cpp:62-71 | the proxy at the head of the queue is dropped |
| Relocation.SBTRelocation.GetReloc | sbt/Relocation.cpp:74-97 | the entry of the list at the address asked for, else the proxy that waits there, with everything before it skipped |
| Relocation.SBTRelocation.AddProxyReloc | sbt/Relocation.cpp:107-140 | a call is queued as its high part here and its low part at the next instruction |
| Relocation.SBTRelocation.HandleRelocation | sbt/Relocation.cpp:144-223 | an instruction gets exactly what is due at its address: its own entry, the high part of its call, or the low part of the call before it |
| Relocation.SBTRelocation.HandleAll | sbt/Relocation.cpp:144-223 | all instructions of a range, asked in order, get exactly what is due at each |
| Relocation.ExactlyOnce | sbt/Relocation.cpp:42-140 | what is due delivers every entry of the range at its own address, a call as its pair, and nothing else |
| Relocation.Halves | sbt/Relocation.cpp:157-223 | the high part fits 20 bits, the low part a signed field of 12, for every word |
| Relocation.AbsolutePair | sbt/Instruction.cpp:584-607 | lui with the high part and an offset with the low part rebuild every 32-bit address |
| Relocation.CallPair | sbt/Relocation.cpp:107-223 | auipc with the high part and the low part rebuild every address relative to the pc of the first instruction |
| Relocation.PcrelPair | sbt/Relocation.cpp:184-195 | a high part relative to its own address leaves a rest that fits the low field, the one the low part of a call there puts in |
| Relocation.JumpOffset | sbt/Relocation.cpp:225-233 | a branch or a jump gets the offset that leads from it to the symbol |
| PrintfBreak.TokenizeExact | sbt/PrintfBreak.cpp:278-300 | the scan into text, escapes and conversions accounts for every character |
| PrintfBreak.TokenizeUntok | sbt/PrintfBreak.cpp:278-300 | and is the only one that does |
| PrintfBreak.TextCut | sbt/PrintfBreak.cpp:309-311 | a format cut between tokens prints the text of its two parts, each with its own arguments |
| PrintfBreak.Breaker.Advance | sbt/PrintfBreak.cpp:278-306 | the scan stops before the conversion after the first n, or at the end when there are just n |
| PrintfBreak.Breaker.Split | sbt/PrintfBreak.cpp:267-324 | the last piece is cut so that the new one has n conversions for n arguments, and the pieces still make up the format |
| PrintfBreak.Breaker.Batch | sbt/PrintfBreak.cpp:202-254 | up to four arguments are handled, the words before a double in one piece and the double in its own |
| PrintfBreak.Breaker.BreakPrintfCall | sbt/PrintfBreak.cpp:141-259 | a call is broken if and only if it has five arguments or more or a double, and then into pieces for all its arguments |
| PrintfBreak.Breaker.IssueNewCalls | sbt/PrintfBreak.cpp:328-391 | the new calls take the arguments in order and none is left over |
| PrintfBreak.Breaker.RunOnCall | sbt/PrintfBreak.cpp:80-113 | a call with at most four arguments and no double stays as it is; the calls put in the place of another fit their formats, have at most four arguments and a double alone, print the same text and return values with the same sum |
| PrintfBreak.SamePrint | sbt/PrintfBreak.cpp:328-391 | breaking keeps the text for every way of rendering conversions, and the sum of the returned values |
| PrintfBreak.CallShapes | sbt/PrintfBreak.cpp:202-254 | each new call has as many conversions as arguments, at most four, and a double alone |
| PrintfBreak.SumIsLength | sbt/PrintfBreak.cpp:346-383 | the sum of the values the calls return is the length of all the text |
| Patricia.FindStored | mibench/network/patricia/patricia.c:321-356 | in a good tree the way of a stored key leads to its holder |
| Patricia.InsertGood | mibench/network/patricia/patricia.c:71-86 | inserting at the first bit that differs keeps the invariant: bits rise downwards and all leaves under a node agree before its bit |
| Patricia.FindAvoids | mibench/network/patricia/patricia.c:178-187 | on the way of a new key no node tests the first bit in which it differs from what it finds |
| Patricia.PutFork | mibench/network/patricia/patricia.c:75-82 | the new node tests the bit, holds its own key on its side, and has the old subtree on the other |
| Patricia.InsertR | mibench/network/patricia/patricia.c:71-86 | the recursive relinking builds the tree of the specification and touches only nodes inside it |
| Patricia.Trie.StoredFound | mibench/network/patricia/patricia.c:321-356 | a search for a stored key ends at exactly the node that stores it |
| Patricia.Trie.FoundStored | mibench/network/patricia/patricia.c:321-356 | what a search ends at is stored, on the side of its first bit |
| Patricia.Trie.DiffInWord | mibench/network/patricia/patricia.c:178-187 | a new key differs from what it finds inside the word if and only if it is not the key with the top bit alone |
| Patricia.Trie.Search | mibench/network/patricia/patricia.c:321-356 | a stored key gives exactly its node, every answer matches the query under its own mask, and there is one when the head matches everything |
| Patricia.Trie.SearchAnswers | mibench/network/patricia/patricia.c:321-356 | the last node on the way that matches is the node of the key whenever there is one |
| Patricia.Trie.FindHolder | mibench/network/patricia/patricia.c:112-119 | the descent of the insertion ends at the holder of the tree |
| PatriciaLaws.NextBit | mibench/network/patricia/patricia.c:40-45 | bits of a key are counted from the top |
| PatriciaLaws.MaskedBit | mibench/network/patricia/patricia.c:336-355 | a masked key has the bits of the key that the mask has |
| PatriciaMasks.MergedAt | mibench/network/patricia/patricia.c:145-163 | a new mask goes in behind the smaller ones and before the greater ones |
| PatriciaMasks.ReplacedAt | mibench/network/patricia/patricia.c:124-137 | a mask that is there gets the new data and nothing else changes |
| PatriciaMasks.MergedKeeps | mibench/network/patricia/patricia.c:124-176 | merging keeps the order of the masks and every other mask with its data |
| PatriciaMasks.EndsExactlyWhen | mibench/network/patricia/patricia.c:149-160 | the loop that merges ends if and only if the full mask is not in the list or is the one that comes |
| PatriciaMasks.FindMask | mibench/network/patricia/patricia.c:129-137 | the entry with the mask, if there is one |
| PatriciaMasks.Merge | mibench/network/patricia/patricia.c:145-163 | the loop builds the merged list although it overwrites the new mask when it has copied it |
| Patricia.Node.MergeMask | mibench/network/patricia/patricia.c:124-176 | the masks of the node become the merged list |
| Patricia.Trie.InsertNode | mibench/network/patricia/patricia.c:98-192 | the trie stays valid; a known key gets the mask merged into its list, an unknown one its node, and no other node loses key or masks |
| Patricia.Trie.Insert | mibench/network/patricia/patricia.c:98-105 | a null node is refused and changes nothing |
| Patricia.SameWay | mibench/network/patricia/patricia.c:112-119 | keys that differ in their top bit alone take the same way on one side |
| Dijkstra.Queue.Enqueue | mibench/network/dijkstra/dijkstra_large.c:48-74 | the item is linked in at the end of the list |
| Dijkstra.Queue.Dequeue | mibench/network/dijkstra/dijkstra_large.c:77-91 | the first item is taken off, or nothing happens to an empty queue |
| Dijkstra.Queue.Count | mibench/network/dijkstra/dijkstra_large.c:94-97 | the counter is the number of items |
| Dijkstra.CostBound | mibench/network/dijkstra/dijkstra_large.c:124-136 | a path costs between nothing and its number of edges times the dearest edge |
| Dijkstra.Shortened | mibench/network/dijkstra/dijkstra_large.c:121-138 | every path has one to the same node with no more nodes than there are, at no greater cost |
| Dijkstra.BestPrefix | mibench/network/dijkstra/dijkstra_large.c:121-138 | a best path without its last edge is a best path |
| Dijkstra.RightExactlyWhen | mibench/network/dijkstra/dijkstra_large.c:126-133 | labels that are least costs can be given if and only if no node's least cost is the sentinel |
| Dijkstra.CheapUnmarked | mibench/network/dijkstra/dijkstra_large.c:126-133 | when 99 edges cost less than the sentinel, as with the costs up to 100 of the benchmark's input, no least cost is the sentinel |
| Dijkstra.UpToHundred | mibench/network/dijkstra/dijkstra_large.c:126-133 | edges of cost up to 100 never give the sentinel |
| Dijkstra.TwoInARowFails | mibench/network/dijkstra/dijkstra_large.c:126-133 | edges of cost 5000 and 4999 in a row give a node at least cost 9999, for which there is no right label |
| Dijkstra.NotSettled | mibench/network/dijkstra/dijkstra_large.c:128-133 | a right label is never improved, even from a queued distance that is out of date |
| Dijkstra.RightFromRight | mibench/network/dijkstra/dijkstra_large.c:128-133 | a right label comes only from a right label, over the last edge of a best path |
| Dijkstra.LabelsKept | mibench/network/dijkstra/dijkstra_large.c:131-133 | every predecessor of a right label is right and older, zero-cost edges included, although other labels may rise again at the sentinel |
| Dijkstra.OnWayNext | mibench/network/dijkstra/dijkstra_large.c:131-133 | an item with a right label comes in no later than any best path to its node |
| Dijkstra.PendingKept | mibench/network/dijkstra/dijkstra_large.c:124-136 | every right label has been handed on over the last edges of best paths, or still waits |
| Dijkstra.LevelUp | mibench/network/dijkstra/dijkstra_large.c:121-138 | when the items over so many edges are gone, all nodes at the end of best paths with one edge more are right |
| Dijkstra.WaySettled | mibench/network/dijkstra/dijkstra_large.c:121-138 | with an empty queue every node at the end of a path is right |
| Dijkstra.SearchDone | mibench/network/dijkstra/dijkstra_large.c:121-138 | on exit the labels are the least costs and the sentinel marks exactly the unreachable nodes |
| Dijkstra.ChainIsPath | mibench/network/dijkstra/dijkstra_small.c:36-44 | following predecessors from a reached node gives a path from the start whose cost is the label |
| Dijkstra.ShortestPath.Relax | mibench/network/dijkstra/dijkstra_large.c:128-133 | recording a shorter way keeps the invariant |
| Dijkstra.ShortestPath.Scan | mibench/network/dijkstra/dijkstra_large.c:124-136 | after all edges of the node the invariant holds, and no sum of costs overflowed |
| Dijkstra.ShortestPath.Turn | mibench/network/dijkstra/dijkstra_large.c:121-138 | one turn keeps the invariant and uses up an item of the current level, of which there are no more than nodes |
| Dijkstra.ShortestPath.PrintPath | mibench/network/dijkstra/dijkstra_small.c:36-44 | printing ends and gives the chain of predecessors |
| Dijkstra.ShortestPath.Search | mibench/network/dijkstra/dijkstra_small.c:98-143 | whenever right labels exist the search ends with them, and prints a path of that cost for a reached end and the end alone for another |
| StringSearch.SkipSafe | mibench/office/stringsearch/bmhasrch.c:89-104 | moving the window by less than the distance of its last character cannot skip a match |
| StringSearch.Horspool.InitFolded | mibench/office/stringsearch/bmhasrch.c:54-78 | the table holds the distance of every character under the fold, and the second shift that of the last one; for the empty pattern all entries are marks and the second shift is zero |
| StringSearch.Horspool.InitPlain | mibench/office/stringsearch/bmhsrch.c:25-43 | the same tables from one pass over the pattern when nothing is folded |
| StringSearch.Horspool.Jump | mibench/office/stringsearch/bmhasrch.c:89-95 | the negative index runs until a character can be the last of a match or the text is used up, and no match is passed |
| StringSearch.Horspool.Compare | mibench/office/stringsearch/bmhasrch.c:96-101 | comparing backwards decides whether the window matches |
| StringSearch.Horspool.Search | mibench/office/stringsearch/bmhasrch.c:80-105 | the leftmost match under the fold, or none, within bounds and ending |
| StringSearch.TableSearch.Init | mibench/office/stringsearch/pbmsrch_small.c:27-37 | the table holds the distance of the last occurrence of every character |
| StringSearch.TableSearch.Search | mibench/office/stringsearch/pbmsrch_small.c:43-68 | the leftmost match or null, which is the specification if and only if the pattern is not empty |
| AesTables.InvSubByteOf | mibench/security/rijndael/aestab.h:22-92 | the inverse substitution table undoes the substitution table at every byte |
| AesLaws.BoxIsInverse | mibench/security/rijndael/aestab.h:22-56 | the table maps every byte to the affine image of its inverse in the field, and zero to that of zero (section 5.1.1 of FIPS 197) |
| AesLaws.AffineBit | mibench/security/rijndael/aestab.h:22-56 | each bit of the image is five bits of the byte and one of {63} added |
| AesLaws.ShiftRows | mibench/security/rijndael/aes.c:611-613 | row r of the state is substituted and turned by r places |
| AesLaws.MixColumns | mibench/security/rijndael/aes.c:431-439 | columns are products with the polynomials of sections 5.1.3 and 5.3.3, by multiplication in the field |
| AesLaws.AddRoundKey | mibench/security/rijndael/aes.c:618-620 | every byte of a round key is added to the byte in its place |
| AesLaws.InputBytes | mibench/security/rijndael/aes.c:711-720 | a block of sixteen bytes fills the state column by column |
| AesExample.Example | mibench/security/rijndael/aes.c:711-769 | the block and the key of appendix C.1 of FIPS 197 give its result, through all round keys and rounds |
| AesField.X2Adds | mibench/security/rijndael/aes.c:299-304 | multiplication by {02} distributes over addition in the field |
| AesField.MulsAdd | mibench/security/rijndael/aes.c:299-304 | and so do the multipliers 09, 0b, 0d and 0e |
| AesField.Coefficient0 | mibench/security/rijndael/aes.c:370-390 | the products of the two mixing matrices' coefficients sum to one on the diagonal |
| AesField.Coefficient1 | mibench/security/rijndael/aes.c:370-390 | and to zero one place beside it |
| AesField.Coefficient2 | mibench/security/rijndael/aes.c:370-390 | two places beside it |
| AesField.Coefficient3 | mibench/security/rijndael/aes.c:370-390 | and three places beside it |
| AesCipher.MixUndone | mibench/security/rijndael/aes.c:390-412 | the inverse matrix undoes the mixing of every column |
| AesCipher.InvMixAdds | mibench/security/rijndael/aes.c:432-438 | the inverse matrix distributes over the addition of a round key |
| AesCipher.SubUndone | mibench/security/rijndael/aes.c:611-613 | inverse substitution and row shifts undo the forward ones on every state |
| AesCipher.CipherUndone | mibench/security/rijndael/aes.c:711-829 | the inverse cipher gives back every block, for every schedule of round keys |
| AesCipher.EquivIsInverse | mibench/security/rijndael/aes.c:568-590 | with the reversed and mixed schedule, rounds of the forward shape compute the inverse cipher on every block |
| AesCipher.FtIsMix | mibench/security/rijndael/aes.c:370-378 | four look-ups give a whole substituted and mixed column |
| AesCipher.ItIsInvMix | mibench/security/rijndael/aes.c:390-398 | the same for the inverse tables |
| AesCipher.FlIsSub | mibench/security/rijndael/aes.c:361-369 | the tables of the last round substitute without mixing |
| AesCipher.IlIsInvSub | mibench/security/rijndael/aes.c:381-389 | the same for the inverse tables |
| AesCipher.InvMcolIsInvMix | mibench/security/rijndael/aes.c:431-439 | inv_mcol is the inverse matrix on one word |
| Aes.RconTable | mibench/security/rijndael/aestab.h:122-132 | entry i of the table is {02} to the power i |
| Aes.Stretch4 | mibench/security/rijndael/aes.c:525-532 | the four words of one turn are the next four of the expansion of the key |
| Aes.Stretch6 | mibench/security/rijndael/aes.c:535-547 | the same for six words |
| Aes.Stretch8 | mibench/security/rijndael/aes.c:549-565 | the same for eight words, with the substitution in the middle |
| Aes.Inverts | mibench/security/rijndael/aes.c:711-829 | decryption under a key inverts encryption under it, for every key and block |
| Aes.FwdRnd | mibench/security/rijndael/aes.c:618-620 | one round of look-ups from one state array into the other is a round of the cipher |
| Aes.InvRnd | mibench/security/rijndael/aes.c:618-620 | the same for the inverse tables |
| Aes.Context.Expand | mibench/security/rijndael/aes.c:523-566 | for each key length the schedule is that of section 5.2 of FIPS 197, and every write stays inside the 64 words |
| Aes.Context.Reverse | mibench/security/rijndael/aes.c:568-590 | the decryption schedule is the reversed one with all but the outer round keys mixed |
| Aes.Context.SetKey | mibench/security/rijndael/aes.c:494-593 | a legal call installs the key for the directions asked for, a call with no bytes reports the key length in use, any other leaves the context without a key |
| Aes.Context.Encrypt | mibench/security/rijndael/aes.c:711-769 | refused without an encryption key; else the block is the cipher of FIPS 197 under the key |
| Aes.Context.Decrypt | mibench/security/rijndael/aes.c:771-829 | refused without a decryption key; else the block is the inverse cipher under the key |
| AesFile.UnchainOfChain | mibench/security/rijndael/aesxam.c:180-214 | unchaining gives back every sequence of whole blocks |
| AesFile.LeadHalves | mibench/security/rijndael/aesxam.c:111-111 | the lowest four bits of the leading byte are the length modulo 16, the others the random ones |
| AesFile.RoundTrip | mibench/security/rijndael/aesxam.c:98-232 | decryption takes out of the container exactly the file that went in, for every length, vector and random byte |
| AesFile.EncFile | mibench/security/rijndael/aesxam.c:98-160 | the output is the container as far as the device has room, and the result is zero if and only if all of it fits |
| AesFile.DecFile | mibench/security/rijndael/aesxam.c:162-232 | the output is the contents of the whole blocks as far as there is room, with the matching result; short and broken inputs are refused as the code refuses them, and an input that ends after the vector is taken to go on with what the buffer was left with |
| Blowfish.RunBack | mibench/security/blowfish/bf_enc.c:113-136 | after each round of the reversed run the halves are those before as many rounds of the forward run |
| Blowfish.Undone | mibench/security/blowfish/bf_enc.c:72-140 | decryption inverts encryption for all round keys and tables |
| Blowfish.UndoneBack | mibench/security/blowfish/bf_enc.c:72-140 | and encryption inverts decryption |
| Blowfish.BfEnc | mibench/security/blowfish/bf_locl.h:209-214 | the macro takes the two halves from one line of the network to the next |
| Blowfish.Forward | mibench/security/blowfish/bf_enc.c:86-109 | the unrolled lines in one order are the published network |
| Blowfish.Backward | mibench/security/blowfish/bf_enc.c:113-136 | in the other order they are the network with reversed round keys |
| Blowfish.Encrypt | mibench/security/blowfish/bf_enc.c:72-140 | the unrolled lines compute the published algorithm in one direction and with reversed round keys in the other |
| BlowfishLaws.OfZeros | mibench/security/blowfish/bf_locl.h:209-214 | the round function of tables of zeros is zero |
| BlowfishLaws.FourthAdds | mibench/security/blowfish/bf_locl.h:209-214 | what is added to the entry of the fourth table is added to it |
| BlowfishLaws.ThirdXors | mibench/security/blowfish/bf_locl.h:209-214 | before that, what is added bit by bit to the entry of the third |
| BlowfishLaws.FirstAdds | mibench/security/blowfish/bf_locl.h:209-214 | before that, what is added to the entry of the first or the second |
| BlowfishLaws.OnlyNamed | mibench/security/blowfish/bf_locl.h:209-214 | no entry counts but the four that the bytes of the half name |
| BlowfishLaws.ZeroTables | mibench/security/blowfish/bf_enc.c:72-140 | with tables of zeros the halves change places and get all even round keys and all odd ones |
| BlowfishLaws.BlockBytes | mibench/security/blowfish/bf_locl.h:143-146 | a block is its eight bytes in order, the highest of each half first |
| BlowfishLaws.ChainedBit | mibench/security/blowfish/bf_cbc.c:75-109 | chaining adds the vector bit by bit |
| BlowfishModes.CbcLength | mibench/security/blowfish/bf_cbc.c:75-109 | the output is the length rounded up to whole blocks |
| BlowfishModes.CbcRoundTrip | mibench/security/blowfish/bf_cbc.c:62-147 | decrypting with the original length gives back every message and the same vector for the next call |
| BlowfishModes.CbcForward | mibench/security/blowfish/bf_cbc.c:75-109 | the loop and the short last block compute the chained blocks and hand on the vector, also when the output goes into the input's buffer |
| BlowfishModes.CbcBackward | mibench/security/blowfish/bf_cbc.c:110-144 | the inverse, of whose last block only the bytes asked for are written, also in place |
| BlowfishModes.CfbRoundTrip | mibench/security/blowfish/bf_cfb64.c:67-126 | cipher feedback gives back every message from every place in a block, and ends in the same place |
| BlowfishModes.OfbRoundTrip | mibench/security/blowfish/bf_ofb64.c:66-114 | so does output feedback |
| BlowfishModes.Cut | mibench/security/blowfish/bf_cfb64.c:67-126 | a message cut in two calls gives the bytes, register and count of one call, in every stream mode |
| BlowfishModes.AnyCutting | mibench/security/blowfish/bf_ofb64.c:66-114 | the same for any number of calls |
| BlowfishModes.CfbBlock | mibench/security/blowfish/bf_cfb64.c:85-101 | a whole block of cipher feedback is the message block added to the encrypted register, and the next register |
| BlowfishModes.OfbBlock | mibench/security/blowfish/bf_ofb64.c:91-103 | a whole block of output feedback is the message block added to the encrypted register, which is the next register |
| BlowfishModes.Cfb64Forward | mibench/security/blowfish/bf_cfb64.c:83-102 | the byte loop computes cipher feedback, register and count included, and writes nothing past the message, also in place |
| BlowfishModes.Cfb64Backward | mibench/security/blowfish/bf_cfb64.c:103-123 | the same for decryption |
| BlowfishModes.Ofb64 | mibench/security/blowfish/bf_ofb64.c:66-114 | the byte loop computes output feedback although it writes the register back only after an encryption, also in place |
| Sha.DigestNext | mibench/security/sha/sha.c:152-160 | one more block is one more compression |
| WordLaws.ByteBits | mibench/security/sha/sha.c:106-124 | the bytes of a word are its bits by eights, the highest byte first |
| WordLaws.WordBits | mibench/security/sha/sha.c:106-124 | and a word made of bytes has theirs |
| Sha.LeOfMirror | mibench/security/sha/sha.c:106-124 | the words a little-endian machine reads after byte_reverse are the big-endian words of the bytes before |
| Sha.CountUp | mibench/security/sha/sha.c:147-151 | the carry rule keeps the two count words at the number of bits |
| Sha.CountIsLength | mibench/security/sha/sha.c:147-151 | which is the bit length modulo 2 to the 64th |
| Sha.CountRest | mibench/security/sha/sha.c:173-173 | the position taken from the count is the number of bytes after the last whole block |
| Sha.PaddedLong | mibench/security/sha/sha.c:175-184 | two blocks make up the padding when the length does not fit behind the bytes kept |
| Sha.PaddedShort | mibench/security/sha/sha.c:182-184 | one block does otherwise |
| Sha.StaysInStep | mibench/security/sha/sha.c:145-162 | when every call but the last one with bytes brings whole blocks, the blocks compressed and the bytes kept make up the message |
| Sha.FallsOut | mibench/security/sha/sha.c:145-162 | for any other lengths of the calls some message loses bytes |
| Sha.RightExactlyWhen | mibench/security/sha/sha.c:145-191 | calls of given lengths compress exactly the padded message, whatever its bytes, if and only if every length but the last one that is not zero is a number of whole blocks |
| Sha.TwoBytes | mibench/security/sha/sha.c:145-162 | two calls with one byte each lose the first |
| ShaLaws.FuncBit | mibench/security/sha/sha.c:16-19 | each quarter's function is the choice, the parity or the majority of the bits |
| ShaLaws.RotBit | mibench/security/sha/sha.c:28-30 | each bit of a rotated word is the one so many places below it, around the end |
| ShaLaws.ConstIsRoot | mibench/security/sha/sha.c:21-26 | the constants are the roots of 2, 3, 5 and 10 in words |
| ShaLaws.InitBytes | mibench/security/sha/sha.c:134-138 | the first digest is the bytes counted up, down, and the last four |
| ShaLaws.RoundSum | mibench/security/sha/sha.c:32-34 | the new word of a round is the sum of five numbers modulo 2 to the 32nd |
| ShaLaws.RoundUndone | mibench/security/sha/sha.c:32-34 | the five words before a round come back from those behind it |
| ShaLaws.RoundsApart | mibench/security/sha/sha.c:78-89 | the rounds of a block take different digests to different ones |
| ShaLaws.SchedBit | mibench/security/sha/sha.c:43-51 | every later word of the schedule has even parity with those 3, 8, 14 and 16 places before it |
| ShaLaws.BlockFromWords | mibench/security/sha/sha.c:43-51 | any sixteen words of the schedule in a row determine the block |
| ShaLaws.LengthNumber | mibench/security/sha/sha.c:188-189 | the last eight bytes of the padding are the number of bits modulo 2 to the 64th |
| ShaExample.Abc | mibench/security/sha/sha.c:132-191 | the digest of "abc", from the padding through the eighty rounds |
| Sha.Work | mibench/security/sha/sha.c:78-89 | the four loops compute the eighty rounds |
| Sha.Info.Schedule | mibench/security/sha/sha.c:43-51 | the 80 words of the message schedule |
| Sha.Info.Transform | mibench/security/sha/sha.c:38-96 | the digest is compressed with the words of the buffer |
| Sha.Info.ByteReverse | mibench/security/sha/sha.c:106-124 | the bytes of every word change places, in place |
| Sha.Info.Init | mibench/security/sha/sha.c:132-141 | the state of the empty message |
| Sha.Info.Update | mibench/security/sha/sha.c:145-162 | the whole blocks of the buffer are compressed and its rest put over the block kept, after any earlier call |
| Sha.Info.Final | mibench/security/sha/sha.c:166-191 | the digest of the blocks compressed and the bytes kept, padded with the message length as in section 5.1.1 of FIPS 180-4 |
| Sha.Info.Calls | mibench/security/sha/sha.c:132-191 | a message in any number of calls: the digest of what the calls amount to, which is that of the message when every call but the last one with bytes brings whole blocks |
| Sha.Info.Stream | mibench/security/sha/sha.c:197-207 | the digest of the rest of the file, whatever its length |
| Isqrt.IdealRoot | mibench/automotive/basicmath/isqrt.c:53-63 | on unbounded numbers the accumulator is the root of the bits consumed and the remainder what is missing |
| Isqrt.IdealIsRoot | mibench/automotive/basicmath/isqrt.c:11-17 | and 32 rounds give the root of the argument times 2 to the 32nd |
| Isqrt.SameUpTo30 | mibench/automotive/basicmath/isqrt.c:53-63 | no round before the last two wraps around, for any argument |
| Isqrt.ExactRegs | mibench/automotive/basicmath/isqrt.c:53-63 | the condition in roots of the argument is the one on the registers of the last rounds |
| Isqrt.RightExactlyWhen | mibench/automotive/basicmath/isqrt.c:45-65 | the 32-bit result is the promised root if and only if the condition on the roots of x times 2 to the 28th and to the 30th holds, for every argument x |
| Isqrt.SmallAreExact | mibench/automotive/basicmath/isqrt.c:45-65 | every argument below 2 to the 28th is right, and below 2 to the 30th what one root misses decides |
| Isqrt.FirstWrong | mibench/automotive/basicmath/isqrt.c:45-65 | 0x10000001 comes out wrong and every smaller argument right |
| Isqrt.Usqrt | mibench/automotive/basicmath/isqrt.c:45-65 | the loop returns the promised root exactly under that condition |

## Left out

- LLVM itself, ELF parsing, the disassembler, debug output and metadata: library calls and I/O; `Host` stands for the part of LLVM that the block code uses.
- Floating-point instructions, multiplication and division, fences, CSR counters and system calls of the guest: they rest on LLVM or host semantics.
- The options file, the stack spill map, external and indirect calls through the icaller, and startMain: they depend on symbol tables and options.
- The switch to a function found on the way (`_nextFuncAddr` in translateInstrs): only the hand-over of the block map is modelled.
- Translation.Function.TranslateInstr: jumps that link a register are calls; their code is that of `RegisterCode`, their meaning that of `Registers`, apart from the block graph.
- Translation.Function.TranslateStep: is for code whose functions are known, so the loop does not stop at a function found on the way, and every block is a tracked one.
- Translation.Function.TranslateInstrs: as TranslateStep.
- Translation.Function.Finish: the unreachable end of main is left out; the cleaning of registers is `RegisterCode.Emitter.CleanRegs`.
- Translation.Function.TransferBBs: moves the map entries only, as the code does; the LLVM blocks stay in the layout of the old host function, so nothing is claimed about a receiver that was given blocks; the map of untracked blocks, which the modelled instructions never fill, is not modelled.
- Translation.Function.Translate: is for functions in GLOBALS mode whose targets lie inside, with no jump to itself and no register jump through x0; a function whose last instruction can fall through ends in an added return and is not claimed to simulate the guest.
- Translation.Function.Simulates: compares computed jumps by the sum they add up; the lowest bit, which the instruction set clears and the translator does not, is taken up in `Tables`.
- Translation.Function.TableJump: words whose relocation has an addend are patched with the block of the bare symbol, as in the code; the model names the label only.
- Translation.Function.TablesSimulate: the loader gives a label one address, the same to both sides, where the two programs would be linked apart.
- Registers.LocalsCall: functions other than main, called by address known at translation; operations are arbitrary functions of the registers they name and of memory.
- RegisterCode.Emitter.HandleCall: callees are functions of the program; external ones, with the option for their synchronisation, are not modelled.
- Registers.AbiSound: the convention covers memory as a whole, so programs that spill registers to a stack they share are covered only where their runs meet that convention.
- Relocation.SBTRelocation.HandleRelocation: raw PCREL_LO12 relocations are not modelled, and the proxy queue is asked once per instruction in address order.
- Relocation.SBTRelocation.HandleAll: states which entry each instruction gets; the address its symbol resolves to and the constant emitted for it are not modelled.
- PrintfBreak.Breaker.RunOnCall: integers wider than a word and floats stop the pass with an assertion, so arguments are words and doubles; printf is taken as plain text and a rendering of each conversion with its argument, never a negative result.
- PrintfBreak.Breaker.BreakPrintfCall: a call that is broken must have as many conversions as arguments, without a star in place of a width.
- Patricia.Trie.InsertNode: each inserted node brings one mask, and it is one whose merging ends; pat_remove and pat_count are not modelled.
- Patricia.Trie.Insert: not for the key 0x80000000, whose bit search leaves the word without a differing bit (`DiffInWord`), nor for a mask behind the full one, whose merging never ends (`EndsExactlyWhen`).
- Dijkstra.ShortestPath.Search: for graphs with a node at least cost 9999 exactly, where no answer is right and a free edge from such a node to itself keeps the loop going, nothing more is said of the run; a printed path is returned as a sequence.
- StringSearch.Horspool.Search: characters are compared as unsigned, as on RISC-V; the locale-dependent variant is not modelled, and pattern and text together stay below 32767 as the code's table needs.
- AesTables.InvSubByteOf: the two substitution tables are copied by value; the wide tables of aestab.h are taken as what the generator in aes.c:325-414 computes, their 4096 literals are not repeated.
- Aes.Context.SetKey: the configuration of the repository (16-byte blocks, fixed tables, unrolled rounds, little-endian); other block sizes are not modelled.
- AesFile.EncFile: fillrand is a parameter, files are sequences of bytes, and writing errors other than a full device do not occur.
- Blowfish.Encrypt: BF_LONG is a word of 32 bits and the key is a value; BF_set_key, whose tables are as arbitrary as any, is not modelled.
- BlowfishModes.CbcForward: input and output are two arrays or the same one from its start, and the vector is its own array; the two directions of each mode are methods of their own.
- Sha.Info.Update: LONG is a word of 32 bits.
- susan, cubic, fft, the bit-counting functions and the CRC table: floating point or finite tables that would only add easy members.
- The benchmark drivers, Python scripts, containers and makefile generation: plumbing.
