# Walletus, verified core

A Dafny model of the parts of the multi-tenant wallet service whose correctness depends on how
several functions work together, with proofs of what they promise over all inputs and over whole
runs. `dafny verify dfyconfig.toml` checks everything.

| Part | Files | Main results |
|---|---|---|
| Deduplicating work queue | `WorkQueue`, `QueueProtocol`, `QueueOwnership`, `QueueRefinement`, `Batching` | exclusive ownership of claimed items over every interleaving, with its exact condition; no lost wake-up; first-in-first-out conservation; a cancelled consumer stops for good; storage separation of batches handed out; the enqueueing methods are the uninterrupted runs of the protocol's producers, and the drain loop is what a consumer does in whatever order its handlers take their steps |
| 15-digit numbers | `DigitPermutation`, `SequenceCounter`, `Luhn`, `NumberGenerator` | no two issued numbers are equal, whatever transactions interleave or fail, and every number tells its calendar day, flag, counter value and random digits; the shuffle loop is a bijection between draws and permutations; the check digit catches every single error and every adjacent swap but 0/9 |
| Key paths and addresses | `KeyPaths`, `KeyDerivation`, `Base58`, `HexText` | printed paths parse back exactly when all indices are below 2^31; watch-only and signing derivation agree, and on an address that stands for the key they lead to; different wallets have different keys unless the hash collides; TRON addresses round-trip both ways |
| Get-or-create wallets | `WalletService`, `WalletTransactions`, `WalletUniqueness`, `WalletRaces`, `WalletRefinement`, `WalletAddresses`, `Transactions` | atomic calls: cached rows equal fresh derivations, one row per key, repeated requests agree, errors are atomic, the return path without a commit has written nothing; concurrent calls: all answers for a wallet name one address under every interleaving, and rows and ids are unique if and only if no call commits after being overtaken; the atomic call is the uninterrupted concurrent one; over the real derivation functions, an address served stands for its wallet's own leaf, and can be signed for along its path if and only if hardening does not wrap the tenant number; a Solana address reads as the key of the wallet's own path |
| Batched balance queries | `BalanceQueries`, `AddressText`, `RpcPool`, `BlockReference` | both batch strategies equal one query per item, and a contract that answers with the 32-byte form of n is listed with n; one pool per network under double-checked locking, holding the endpoints its dials reached; named block tags pass unchanged, numeric ones are exact between 1 and 2^64 - 1 |
| Payroll workflow | `Payroll`, `PayrollHistory` | what eight handlers keep over every run; the exact condition on updates; at most four status changes; where every column comes from: a payroll is approved if and only if an effective audit approved it, paid with the data of its one payment, and its payslips are the requested items minus the deleted ones |
| Balance printing | `BalanceFormat` | the text denotes exactly amount / 10^decimals if and only if the amount is not a negative number with a fraction |
| Shared | `Positional` | positional notation in every base, texts of numbers, padding |

Concurrent code is modelled as a state machine: a thread has a program counter, one step does what
the code does between two points where another thread may run, and a run is any sequence of steps.
Classes carry the fields the program mutates; their methods are proved against specification
functions, and the theorems are about those functions and the runs built from them.

A call of the wallet service is a transaction under MySQL's default isolation: its reads see the
tables as they were committed at its first read, its inserts stay invisible to others until it
commits, and the two tables have no unique index besides the primary key.

Parameters stand for what the repository does not define: hash and keyed-hash outputs (any byte
sequence), the elliptic curve (a group homomorphism `point(a + b) = point(a) + point(b)`; the
hypotheses on it, and on the text form of extended keys, are shown to be satisfiable), the answers of
nodes and databases, random digits, the clock, and the order in which Go visits a map.

## Where the code and its comments or callers disagree

The model follows the code; each point has a lemma.

- `nextSeq` is commented as returning 0..9999. It hands out 0..9998 and then fails
  (`SequenceCounter.NthCallOfTheDay`).
- `EnqueueWithDelay` deletes the claim of an item whose handler is still running, so ownership is
  lost exactly when the item was claimed (`QueueOwnership.DelayKeepsOwned`,
  `QueueOwnership.OwnershipOverRuns`).
- Dequeuing outside a consumer leaves the claims of the removed items behind
  (`QueueOwnership.OutsideTakeKeepsOwned`), and a consumer started with a batch size that is not
  positive consumes the token without draining (`QueueProtocol.WakeUpNeedsPositiveSize`).
- Concurrent calls of `WalletCreate` for one wallet can both insert and return different ids
  (`WalletRaces.TwoCallsDuplicate`). This happens exactly when a call commits a row although another
  call has committed one of the same key outside its snapshot, or after a failed address lookup that
  hid one (`WalletUniqueness.UniqueIffTimely`). What a call reads does not tell: in that race nothing had been inserted at either read
  (`WalletRaces.ReadsDoNotTell`), and a rival's uncommitted row may be rolled back
  (`WalletRaces.RolledBackRivalIsHarmless`). It is enough that calls for one tenant and chain do not
  overlap (`WalletUniqueness.SerialRunsAreUnique`).
- Nothing compares the tenant a request names with the tenant it is made for. If they differ, a
  successful call keeps the tables right only when neither has the chain yet
  (`WalletService.TenantMismatchIsExact`).
- `WalletCreate` looks a chain up under the requested spelling and stores it under the canonical
  one, so the alias `arbitrum` inserts again on every request (`WalletService.AliasBreaksIdempotence`);
  it also ignores errors of the address lookup, which then duplicates an existing wallet
  (`WalletService.FailedLookupDuplicates`).
- Token balances are filed under the checksummed address, not under the text the caller used
  (`BalanceQueries.AnswerNeedsChecksummedAddress`).
- `PortalPayrollUpdate` copies month and status from the request without checking them
  (`Payroll.SoundUpdateIsExact` gives the exact condition under which that is harmless).
- Block number 0 becomes "latest", a negative number loses its sign, a number of 2^64 or more its
  high bits (`BlockReference.NumericTagIsExact`).
- `formatBalance` divides towards negative infinity but prints the fraction away from zero: -1 with
  one decimal is printed as -1.9 (`BalanceFormat.PrintsExactly`).

## Model

| member | source | states |
|---|---|---|
| WorkQueue.SignInLocks.LoadOrStore | common/system/queue_enhance.go:30-33 | claiming an item reports whether it was claimed and leaves it claimed |
| WorkQueue.SignInLocks.Delete | common/system/queue_enhance.go:46 | releasing removes exactly that claim |
| WorkQueue.Append | common/system/queue_enhance.go:38 | append adds one item at the end, in place or in fresh storage |
| WorkQueue.RichQueue.constructor | common/system/queue_enhance.go:22-27 | a new queue is empty, with no token |
| WorkQueue.RichQueue.Enqueue | common/system/queue_enhance.go:29-43 | an unclaimed item is claimed, appended and announced; a claimed one changes nothing |
| WorkQueue.RichQueue.BatchEnqueue | common/system/queue_enhance.go:55-70 | the items appended are the first occurrences of unclaimed ones, in order; all become claimed; a token is posted |
| WorkQueue.AdmittedOnce | common/system/queue_enhance.go:59-65 | an item of a batch is admitted if and only if it was unclaimed, and once only |
| WorkQueue.AdmittedInOrder | common/system/queue_enhance.go:59-65 | the admitted items come in the order offered |
| WorkQueue.RichQueue.Dequeue | common/system/queue_enhance.go:72-84 | removes and returns the first item; an error changes nothing |
| WorkQueue.RichQueue.BatchDequeue | common/system/queue_enhance.go:87-108 | returns the first min(size, len) items; the batch's storage leaves the queue for good; errors change nothing |
| WorkQueue.BatchIsRepeatedDequeue | common/system/queue_enhance.go:72-108 | a batch of k is what min(k, len) single removals give, in items and in what is left |
| WorkQueue.Drive | common/system/queue_enhance.go:29-108 | storage separation: no later sequence of operations writes into a batch handed out earlier |
| WorkQueue.DrainIsComplete | common/system/queue_enhance.go:143-163 | without new arrivals the drain loop hands out everything in order in ceil(len / size) batches |
| WorkQueue.DrainLoop | common/system/queue_enhance.go:143-163 | one awakening, handlers run in turn, hands out exactly those batches, releases exactly the claims of the items handled, and leaves the queue empty for a positive size and untouched otherwise |
| WorkQueue.ReleaseAll | common/system/queue_enhance.go:149-161 | the handlers of a batch release exactly its claims |
| WorkQueue.SlotQueue.Enqueue | common/system/queue.go:23-31 | the simple queue appends without claims and posts a token |
| WorkQueue.SlotQueue.Dequeue | common/system/queue.go:33-43 | removes and returns the first item; an error changes nothing |
| WorkQueue.SlotQueue.BatchDequeue | common/system/queue.go:45-63 | a batch is what that many single removals give, possibly empty, always a fresh copy; a size that is not positive is an error |
| QueueProtocol.RunConserves | common/system/queue_enhance.go:29-108 | at every moment of every interleaving, items appended equal items taken followed by items queued |
| QueueProtocol.MoveWakes | common/system/queue_enhance.go:35-42 | a step that adds items or consumes the token leaves its thread responsible for the queue |
| QueueProtocol.RunWakes | common/system/queue_enhance.go:35-42 | no lost wake-up: a non-empty queue has a token, a consumer in its drain loop, or a producer holding the mutex about to post |
| QueueProtocol.AwakeWhenUnlocked | common/system/queue_enhance.go:137-166 | with the mutex free, a non-empty queue has a token or a draining consumer |
| QueueProtocol.WakeUpNeedsPositiveSize | common/system/queue_enhance.go:91-93 | in any state, a consumer that answers the token of a non-empty queue leaves it awake if and only if its batch size is positive or another thread is alert |
| QueueProtocol.CancelStops | common/system/queue_enhance.go:139-141 | a listening consumer that is cancelled stays stopped in every continuation, and no event of its own changes anything |
| QueueOwnership.RunCounts | common/system/queue_enhance.go:148-162 | the wait group counts exactly the handlers that have not finished |
| QueueOwnership.WaitReleasesBatch | common/system/queue_enhance.go:148-162 | wg.Wait returns if and only if every handler of the batch has finished, its claim released |
| QueueOwnership.DelayKeepsOwned | common/system/queue_enhance.go:45-53 | a delayed re-enqueue keeps ownership exclusive if and only if the item is unclaimed |
| QueueOwnership.OutsideTakeKeepsOwned | common/system/queue_enhance.go:72-108 | removing items outside a consumer keeps ownership exclusive if and only if nothing is removed |
| QueueOwnership.StepKeepsOwned | common/system/queue_enhance.go:29-166 | one step keeps the claim table equal to the disjoint union of carried, queued and in-flight items if and only if it is careful |
| QueueOwnership.OwnershipOverRuns | common/system/queue_enhance.go:29-166 | ownership is exclusive throughout a run if and only if every step of it is careful |
| QueueOwnership.ExclusiveOwnership | common/system/queue_enhance.go:29-166 | without delayed re-enqueues and outside removals no item is ever queued or handled twice at once |
| QueueOwnership.DelayLosesOwnership | common/system/queue_enhance.go:45-53 | a run in which a handler re-enqueues its own item and the item is claimed again while still being handled |
| QueueRefinement.EnqueueAlone | common/system/queue_enhance.go:29-43 | an uninterrupted producer of the protocol has exactly the effect of the method Enqueue |
| QueueRefinement.BatchEnqueueAlone | common/system/queue_enhance.go:55-70 | an uninterrupted batch producer ends with exactly the effect of the method BatchEnqueue |
| QueueRefinement.ConsumerInAnyOrder | common/system/queue_enhance.go:137-166 | a woken consumer that nobody else disturbs has, whenever it listens again and in whatever order its handlers took their steps, taken exactly the batches of the drain loop and released exactly their claims |
| QueueRefinement.ConsumerAlone | common/system/queue_enhance.go:137-166 | such a consumer can always run until it listens again |
| DigitPermutation.ShuffleRearranges | common/system/rand.go:121-128 | the shuffle loop rearranges any list of distinct elements |
| DigitPermutation.ShuffleIsInjective | common/system/rand.go:121-128 | different draws give different arrangements |
| DigitPermutation.ShuffleIsSurjective | common/system/rand.go:121-128 | every arrangement comes from some draws |
| DigitPermutation.ShuffleInPlace | common/system/rand.go:116-129 | the in-place loop, reusing hash bytes when they run out, is that shuffle |
| DigitPermutation.BuildDigitPerm | common/system/rand.go:112-130 | the table is the shuffle of the ten digits |
| DigitPermutation.DigitPermIsPermutation | common/system/rand.go:112-130 | for every hash output the table is a permutation of the ten digits |
| DigitPermutation.ByteIndexWraps | common/system/rand.go:120-127 | the hash bytes are used in turn and start again after the last |
| DigitPermutation.EveryDigitPermHasASeed | common/system/rand.go:112-130 | every permutation of the ten digits comes from some hash output |
| DigitPermutation.ObfuscationIsBijective | common/system/rand.go:136-151 | permute-then-rotate has an exact two-sided inverse for every permutation and rotation |
| DigitPermutation.ObfuscatedAt | common/system/rand.go:139-150 | digit i of the date, replaced, moves as many places to the right as the rotation says, around the end |
| DigitPermutation.BuildRot | common/system/rand.go:131-135 | the rotation is one of 0..5 |
| DigitPermutation.RotationOfFirstByte | common/system/rand.go:131-135 | the first hash byte decides the rotation, and every rotation occurs |
| DigitPermutation.Obfuscate | common/system/rand.go:136-151 | the buffer, filled and rotated, is the obfuscated date |
| SequenceCounter.StepKeepsInv | common/system/rand.go:77-104 | every read, write, commit or abort of any transaction keeps row locks exclusive and what a transaction saw current |
| SequenceCounter.RunKeepsInv | common/system/rand.go:77-109 | in every interleaving no counter value reaches two callers |
| SequenceCounter.AloneIsUninterrupted | common/system/rand.go:77-109 | an uninterrupted transaction of the protocol is one call of the method, with every fault |
| SequenceCounter.NthCallOfTheDay | common/system/rand.go:85-101 | the calls of a day get 0, 1, ..., 9998 and then errors |
| SequenceCounter.CounterTable.NextSeq | common/system/rand.go:77-109 | the row is inserted or incremented and its old value returned; a fault or a full day changes nothing, except that a commit may be stored although the caller gets an error |
| Luhn.LuhnDigit | common/system/rand.go:161-175 | the accumulator loop computes the check digit of the weighted sum |
| Luhn.CheckDigitIsUnique | common/system/rand.go:161-175 | exactly one appended digit makes the checksum a multiple of ten |
| Luhn.KnownNumber | common/system/rand.go:161-175 | 7992739871, the usual example of ISO/IEC 7812-1 Annex B, is completed by 3 |
| Luhn.SingleErrorIsDetected | common/system/rand.go:161-175 | changing any one digit of an accepted string of any length makes it rejected |
| Luhn.TranspositionIsDetected | common/system/rand.go:161-175 | swapping two adjacent different digits is detected if and only if they are not 0 and 9 |
| NumberGenerator.YYMMDDIsSixDigits | common/system/rand.go:138 | the date text has six digits |
| NumberGenerator.DateTextReads | common/system/rand.go:138 | read two digits at a time, the date text gives the year within its century, the month and the day, in this order |
| NumberGenerator.SameDateText | common/system/rand.go:138-181 | two dates have one text if and only if they are the same day of the same year of a century |
| NumberGenerator.NumberIsWellFormed | common/system/rand.go:194-196 | an issued number has fifteen digits and passes the check |
| NumberGenerator.LayoutIsUnambiguous | common/system/rand.go:178-197 | equal numbers force equal flag, calendar day, counter value and random digits |
| NumberGenerator.NumberReads | common/system/rand.go:178-197 | whoever knows permutation and rotation reads flag, year, month, day, counter value and random digits back from a number |
| NumberGenerator.IssuedNumbersAreDistinct | common/system/rand.go:77-197 | over every interleaving of calls on all flags, calendar days and time zones, all issued numbers are distinct |
| NumberGenerator.Generator.New | common/system/rand.go:61-74 | a generator is made exactly for flags 0..9 and known time zones |
| NumberGenerator.Generator.Render | common/system/rand.go:182-196 | the text is the layout of flag, obfuscated date, counter, random digits and check digit |
| NumberGenerator.Generator.Generate | common/system/rand.go:179-197 | a number is returned exactly when the counter and the random source succeed; it passes the check and reads back as the flag, today's year, month and day, the counter value just drawn and the random digits; a lost acknowledgement uses a value up |
| KeyPaths.ParseBIP44Path | common/bip/evm_compatible.go:192-230 | the parsing loop computes the child numbers of the path or refuses it |
| KeyPaths.SplitJoins | common/bip/evm_compatible.go:205 | the parts of a path have no slash and, joined by slashes, are the path |
| KeyPaths.AcceptedPaths | common/bip/evm_compatible.go:192-230 | a path is accepted if and only if it starts with m and every part after the first is a decimal number below 2^31, with or without one mark |
| KeyPaths.KnownNumbers | common/bip/evm_compatible.go:209-226 | a mark adds 2^31 to the number of a part; from 2^31 on a part is refused |
| KeyPaths.PathRoundTrip | common/bip/evm_compatible.go:192-230 | a printed path parses to 0 and its child numbers, without overflow, if and only if every index is below 2^31 |
| KeyPaths.PathTextIsInjective | common/bip/evm_compatible.go:126 | different index lists print different paths |
| KeyPaths.KnownPath | common/bip/evm_compatible.go:126 | the path of an Ethereum wallet, written out |
| KeyPaths.KnownTronPath | common/bip/evm_compatible.go:126 | the path of a TRON wallet, written out |
| KeyPaths.KnownSolanaPaths | common/bip/sol.go:26-29 | the two shapes of Solana paths, written out |
| KeyPaths.EvmPathIsInjective | common/bip/evm_compatible.go:126 | EVM and TRON paths determine coin, tenant and address index |
| KeyPaths.SolPathIsInjective | common/bip/sol.go:26-29 | the two shapes of Solana paths determine tenant and address index |
| KeyDerivation.DerivePathMust | common/bip/evm_compatible.go:242-252 | the loop follows the path from the key, failing where a step fails |
| KeyDerivation.ChildCommutesWithNeuter | common/bip/evm_compatible.go:71 | N(CKDpriv) = CKDpub(N) for normal steps (section "Child key derivation (CKD) functions" of BIP-32), failures included, for every validity check of hash and child point |
| KeyDerivation.DeriveChildXprv | common/bip/evm_compatible.go:162-190 | the private leaf of a printed path |
| KeyDerivation.AddressDenotes | common/bip/evm_compatible.go:108-121 | an address text, read by the decoder of its chain, gives the address hash of the public key it was made of, and exactly six chains have addresses |
| KeyDerivation.SigningAddressIsOfItsKey | common/bip/evm_compatible.go:124-160 | the signing route gives the private leaf of the path and an address that reads as the hash of its public key |
| KeyDerivation.WatchAddressIsOfItsLeaf | common/bip/evm_compatible.go:84-127 | the watch-only route gives an address that reads as the hash of the public leaf below the account, and the path of the wallet |
| KeyDerivation.AccountPathIsPrefix | common/bip/evm_compatible.go:49-82 | the path of an account is that of its wallets without the index |
| KeyDerivation.SiblingKeys | common/bip/evm_compatible.go:242-252 | two children of one private key are equal if and only if the hashes of their inputs, which differ, have equal left halves |
| KeyDerivation.PathsLeadApart | common/bip/evm_compatible.go:242-252 | two different paths of one length lead from a master to different nodes unless the keyed hash collides |
| KeyDerivation.WalletsHaveOwnLeaves | common/bip/evm_compatible.go:162-190 | wallets that differ in coin, tenant or index have different leaves unless the keyed hash collides |
| KeyDerivation.AccountAgrees | common/bip/evm_compatible.go:84-160 | below one account the neutered key leads to the address of the private leaf, whatever the chain |
| KeyDerivation.WatchAgreesWithSigning | common/bip/evm_compatible.go:49-190 | for coin, tenant and index below 2^31, both routes fail or give the same address; what that address stands for is the row on each route above |
| KeyDerivation.SigningNeedsSmallIndices | common/bip/evm_compatible.go:216-219 | from 2^31 on the signing route always fails, and the watch-only route refuses such an address index |
| KeyDerivation.LawsAreSatisfiable | common/bip/evm_compatible.go:49-190 | the hypotheses on the curve, different keys having different points included, are met by a concrete cyclic group |
| Base58.RebaseRoundTrip | common/bip/evm_compatible.go:271 | base conversion that keeps leading zeros is its own inverse between any two bases |
| Base58.AlphabetIsBijective | common/bip/evm_compatible.go:271 | symbols and digits correspond one to one |
| Base58.AlphabetInOrder | common/bip/evm_compatible.go:271 | the symbols are the digits and letters without 0, O, I and l, in character order |
| Base58.Base58RoundTrip | common/bip/evm_compatible.go:271 | encoding and decoding cancel both ways |
| TronAddress.EncodedParts | common/bip/evm_compatible.go:114-121 | an encoded address decodes to 0x41, the twenty bytes and the first four bytes of their double hash |
| TronAddress.ReadOfEncoded | common/bip/evm_compatible.go:114-121 | twenty bytes, written by the derivation and read by the chain client, come back |
| TronAddress.Base58AddressToHex | common/chain/tron/client.go:414-446 | a string is accepted with result bs if and only if it is the encoding of bs |
| TronAddress.EncodeTRC20BalanceOfParameter | common/chain/tron/client.go:399-411 | the parameter is 64 hex digits denoting twelve zero bytes and the address, for exactly the valid addresses |
| HexText.HexRoundTrip | common/chain/tron/client.go:410 | hex text, with or without either prefix, reads back as its bytes |
| HexText.HexOfByte | common/chain/tron/client.go:410 | the high half of a byte comes first, and letters are in lower case |
| HexText.OddDigits | common/chain/evm/abi.go:328-332 | a missing first digit counts as zero |
| WalletService.CheckValidChainCode | common/bip/evm_compatible.go:37-47 | the registry entry of the requested name, arbitrum standing for ARB, or an error exactly when there is none |
| WalletService.RegistryIsCanonical | common/bip/evm_compatible.go:37-47 | looking up a canonical name gives it back, and arbitrum is the only alias |
| WalletService.KnownChains | common/chain/dep/types.go:15-24 | the eight chains of the registry with their coin types |
| WalletService.Service.TenantChain | cmd/modapi/service/wallet.go:45-65 | finds the chain row or derives and inserts it in the transaction |
| WalletService.Service.Rollback | cmd/modapi/service/wallet.go:35-43 | the tables go back to the committed ones, used ids stay used |
| WalletService.Service.WalletCreate | cmd/modapi/service/wallet.go:15-98 | new tables, answer and open transaction of one call, on every branch and fault |
| WalletService.ErrorsAreAtomic | cmd/modapi/service/wallet.go:31-95 | an error return leaves both tables as they were unless the commit was unacknowledged, which leaves what the acknowledged call would have left; an unknown chain, a bad key setting and a failed first read are errors |
| WalletService.RetryFindsLostWallet | cmd/modapi/service/wallet.go:67-95 | after an unacknowledged commit, a successful retry returns what the lost answer would have been |
| WalletService.EarlyReturnWroteNothing | cmd/modapi/service/wallet.go:67-72 | the return that never commits has written nothing |
| WalletService.CreateKeepsInv | cmd/modapi/service/wallet.go:45-97 | one call keeps rows unique and equal to the derivation functions |
| WalletService.SuccessIsStoredAndFresh | cmd/modapi/service/wallet.go:67-97 | an answer is what the tables hold and what deriving from scratch gives |
| WalletService.AnswerKept | cmd/modapi/service/wallet.go:45-97 | no call changes an existing answer |
| WalletService.RunKeepsInv | cmd/modapi/service/wallet.go:45-97 | over every canonical run, one chain row per tenant and chain and one address row per chain row and index |
| WalletService.RepeatedRequestsAgree | cmd/modapi/service/wallet.go:45-97 | any two successful calls for one wallet return the same id and address |
| WalletService.FailedLookupDuplicates | cmd/modapi/service/wallet.go:68 | for an existing wallet the address table stays free of duplicates if and only if the lookup works |
| WalletService.AliasBreaksIdempotence | cmd/modapi/service/wallet.go:46-56 | repeating a request gives the same id if and only if it uses the canonical chain name |
| WalletService.ArbitrumTwice | cmd/modapi/service/wallet.go:46-56 | the second request for a wallet on arbitrum returns a second id and leaves two chain rows |
| WalletService.ForeignChainRow | cmd/modapi/service/wallet.go:46-90 | a request that names another tenant who has the chain stores an address below that tenant's account |
| WalletService.SecondChainRow | cmd/modapi/service/wallet.go:46-64 | a request that names another tenant without the chain gives a tenant who has it a second chain row |
| WalletService.TenantMismatchIsExact | cmd/modapi/service/wallet.go:46-90 | a successful call keeps the tables right if and only if the named tenant is the caller or neither has the chain |
| WalletTransactions.StepKeepsConsistent | cmd/modapi/service/wallet.go:31-97 | every read, insert, commit, fault or abort of any call keeps committed rows cached, snapshots part of the tables, and inserted rows apart |
| WalletTransactions.RunIsConsistent | cmd/modapi/service/wallet.go:31-97 | over every interleaving, committed rows cache the derivation functions and every answer is recorded in them |
| WalletTransactions.AnswerIsDerived | cmd/modapi/service/wallet.go:67-97 | every answer of every interleaving is the address derived from scratch |
| WalletTransactions.AddressesAgree | cmd/modapi/service/wallet.go:67-97 | all answers for one wallet name the same address, whatever interleaves or fails |
| WalletUniqueness.StepKeepsUnique | cmd/modapi/service/wallet.go:92-95 | a step keeps rows unique if and only if it is not a commit after being overtaken or after a lookup that hid the row |
| WalletUniqueness.UniqueGivesEqualAnswers | cmd/modapi/service/wallet.go:67-97 | while rows are unique, all answers for one wallet have the same id |
| WalletUniqueness.UniqueIffTimely | cmd/modapi/service/wallet.go:31-97 | rows and answers are unique at every moment of a run if and only if no call commits when overtaken or blind |
| WalletUniqueness.SerialRunsAreUnique | cmd/modapi/service/wallet.go:31-97 | if only the calls of one tenant and chain do not overlap, rows and answers are unique, whatever else interleaves |
| WalletRaces.TwoCallsDuplicate | cmd/modapi/service/wallet.go:46-97 | for any wallet, two concurrent calls can both succeed with ids 1 and 2 and leave two chain rows |
| WalletRaces.ReadsDoNotTell | cmd/modapi/service/wallet.go:46 | at both reads of that race nothing had been inserted or committed |
| WalletRaces.RolledBackRivalIsHarmless | cmd/modapi/service/wallet.go:35-43 | a call that reads none while another has inserted the row duplicates nothing if that one is cut short |
| WalletRefinement.AloneIsCreated | cmd/modapi/service/wallet.go:15-98 | the atomic call is a session that nobody interrupts, with every fault |
| WalletAddresses.RegistryCoins | common/chain/dep/types.go:15-24 | every registered coin type is below 2^31 |
| WalletAddresses.RouteOfWallet | common/bip/parent.go:61-89 | an address the service derives is the watch-only one, and its path the printed one |
| WalletAddresses.RoutesMeet | common/bip/evm_compatible.go:49-190 | a wallet the watch-only route reaches has an address that stands for its leaf; the signing route gives the same address, with a key it stands for, if and only if hardening does not wrap the tenant number |
| WalletAddresses.StoredRowCanBeSigned | cmd/modapi/service/wallet.go:74-90 | the stored path is the wallet's own and the stored address reads as the hash of its public leaf; following the path from the tenant's master gives a private key the address stands for, if and only if the tenant number is below 2^31 as a uint32 |
| WalletAddresses.ServedAddressCanBeSigned | cmd/modapi/service/wallet.go:15-98 | over every interleaving of canonical calls, an address handed out stands for the leaf of its wallet, and the signing route gives it with a key it stands for under exactly that condition |
| WalletAddresses.SolanaRow | common/bip/sol.go:18-31 | a stored Solana address reads as the public key that the tenant's seed gives along the stored path, which is the wallet's own |
| WalletAddresses.SolanaRowsApart | common/bip/sol.go:25-29 | two Solana rows with one path are for one tenant, as a uint32, and one index |
| WalletAddresses.ServedSolanaAddress | cmd/modapi/service/wallet.go:15-98 | over every interleaving, a Solana address handed out reads as the key of the wallet's own path |
| WalletAddresses.ServedTronAddressIsReadable | cmd/modapi/service/wallet.go:15-98 | every TRON address handed out is the encoding of twenty bytes, hence accepted by the chain client |
| WalletAddresses.LibraryIsSatisfiable | common/bip/parent.go:61-89 | the hypotheses on registry, curve and key texts are met by the service's registry and a concrete group and encoding |
| Batching.Chunk | common/chain/evm/abi.go:141-169 | chunks concatenate to the input, all but the last are full, none is empty unless the input is, and a bound that is not positive means no cutting |
| BalanceQueries.NativeBalanceBatch | common/chain/evm/client.go:146-187 | the batched answer holds exactly the addresses asked for, each with the balance the node reports, or zero where it fails, for every batch bound |
| BalanceQueries.NativeBalance | common/chain/evm/client.go:130-136 | a single query gives the balance of its address |
| BalanceQueries.MulticallBalanceOf | common/chain/evm/abi.go:239-296 | multicall gives the pointwise pair map, in which a contract that answers balanceOf(owner) with the 32-byte form of n has n; an answer of the wrong length is an error |
| BalanceQueries.TokenAmountOfWord | common/chain/evm/abi.go:288-292 | an answer that ends in the 32-byte form of n counts as n; a shorter or failed one as zero |
| BalanceQueries.WordFits | common/chain/evm/abi.go:288-292 | every number below 2^256 has such a form |
| BalanceQueries.HoldingsAreMapped | common/chain/evm/abi.go:280-293 | in the pointwise map a pair whose contract answers with the form of n has n |
| BalanceQueries.BatchedBalanceOf | common/chain/evm/abi.go:298-336 | batched single calls give the same pointwise pair map, read from hex |
| BalanceQueries.FlattenPairs | common/chain/evm/abi.go:172-181 | the pairs of each address in turn, each address once, in some order of the map |
| BalanceQueries.ExplodePairs | common/chain/evm/abi.go:183-198 | each owner lists exactly its pairs, each contract once, whatever the map order |
| BalanceQueries.TokenBalancesBatch | common/chain/evm/client.go:189-213 | whichever strategy answers, every distinct requested token is listed once, and one whose contract answers with the 32-byte form of n is listed with n |
| BalanceQueries.RequestedHoldings | common/chain/evm/abi.go:183-198 | a requested token that holds n is listed with n under the checksummed texts of owner and contract |
| BalanceQueries.TokenBalances | common/chain/evm/client.go:138-144 | a single query lists every distinct token once, with what its contract answers, for a checksummed address and nothing otherwise |
| BalanceQueries.AnswerNeedsChecksummedAddress | common/chain/evm/abi.go:186-188 | a caller finds its address in the answer if and only if it used the checksummed text |
| BalanceQueries.LowerCaseIsNotFound | common/chain/evm/abi.go:186-188 | an address spelled in lower case is not found when its checksummed text is in upper case |
| BalanceQueries.AddressCodecIsFaithful | common/chain/evm/abi.go:172-187 | the address texts of the client satisfy what the queries assume about them |
| AddressText.ChecksumRoundTrip | common/chain/evm/abi.go:186-187 | a mixed-case address text reads back as its address, whatever letters are upper-case |
| AddressText.UpperLetters | common/chain/evm/abi.go:186-187 | a digit is in upper case if and only if it is a letter that the hash picks |
| AddressText.OtherLengths | common/chain/evm/abi.go:172-180 | of more than twenty bytes the last twenty count, fewer are completed with zeros in front |
| RpcPool.ActKeepsInv | common/chain/evm/abi.go:33-74 | one step of any caller keeps one writer, proper pools and multicall entries |
| RpcPool.RunKeepsInv | common/chain/evm/abi.go:33-74 | the same at every moment of every interleaving with failing dials |
| RpcPool.OnePoolPerNetwork | common/chain/evm/abi.go:33-80 | at most one pool is installed per network, every successful call returns it, its clients and names match, and its multicall entry is resolved |
| RpcPool.PoolHoldsReached | common/chain/evm/abi.go:56-66 | a pool holds exactly the configured endpoints whose dials succeeded, in order, with their names |
| RpcPool.FailuresAreTotal | common/chain/evm/abi.go:51-68 | a call fails only if no endpoint is configured or every dial failed |
| BlockReference.HeightOfTag | common/chain/evm/client.go:107-127 | a numeric tag anchors at its magnitude modulo 2^64 |
| BlockReference.ParamOfHeight | common/chain/evm/abi.go:112-121 | a positive height prints as hex text denoting it; zero prints as latest |
| BlockReference.NumericTagIsExact | common/chain/evm/client.go:82-127 | a numeric tag reaches the node as exactly that block if and only if it is between 1 and 2^64 - 1 |
| BlockReference.ParamOfTag | common/chain/evm/client.go:82-127 | what the node is asked for when a tag spells any integer |
| BlockReference.UnreachableBlocks | common/chain/evm/abi.go:117-120 | blocks 0 and 2^64 are taken for the latest one, block -1 for block 1 |
| BlockReference.DecimalTags | common/chain/evm/client.go:107-115 | every decimal spelling, padded or not, is such a tag |
| BlockReference.SignedTags | common/chain/evm/client.go:107-115 | so is one with a sign, which counts |
| BlockReference.NamedModePasses | common/chain/evm/abi.go:112-116 | a named mode reaches the node as itself; there is no anchor exactly when the head is missing |
| BlockReference.DefaultModePinsTheHead | common/chain/evm/client.go:83-105 | an empty mode pins the block number the provider reported |
| Payroll.Portal.MonthTaken | cmd/modapi/http/portal/admin.go:655-662 | reports whether the month has a payroll that is neither rejected nor paid |
| Payroll.Portal.PayrollCreate | cmd/modapi/http/portal/admin.go:604-711 | inserts a draft with the requested month and total and its payslips exactly when the month is valid and free; otherwise changes nothing |
| Payroll.Portal.PayrollUpdate | cmd/modapi/http/portal/admin.go:713-818 | replaces month, total, status and payslips of a draft; otherwise changes nothing |
| Payroll.Portal.PayrollDelete | cmd/modapi/http/portal/admin.go:820-885 | flags a draft; otherwise changes nothing |
| Payroll.Portal.PayrollSubmit | cmd/modapi/http/portal/admin.go:887-966 | submits a draft exactly when it has payslips and all their addresses are valid hex |
| Payroll.Portal.PayrollAudit | cmd/modapi/http/portal/admin.go:968-1044 | "approve" approves and "reject" rejects a waiting payroll, with the note appended; otherwise changes nothing |
| Payroll.Portal.PayrollPay | cmd/modapi/http/portal/admin.go:1046-1126 | an approved payroll gets transaction and chain exactly when both and the settings are there |
| Payroll.Portal.PayrollStatusCheck | cmd/modapi/http/portal/admin.go:1530-1645 | a paying payroll becomes paid, with its time, exactly when the transaction is confirmed |
| Payroll.Portal.PayrollStaffDelete | cmd/modapi/http/portal/admin.go:1472-1528 | deletes one payslip |
| Payroll.SoundUpdateIsExact | cmd/modapi/http/portal/admin.go:770-804 | an accepted update keeps invariant and workflow if and only if it keeps the draft, or submits it with hex addresses, and takes no open month |
| Payroll.PlainUpdateIsSound | cmd/modapi/http/portal/admin.go:770-772 | updates that keep draft status and month are sound |
| Payroll.UpdateSkipsTheWorkflow | cmd/modapi/http/portal/admin.go:770-772 | one update takes a new draft to paid, without transaction and pay time |
| Payroll.StepKeeps | cmd/modapi/http/portal/admin.go:604-1645 | every handler keeps the invariant and moves each payroll along at most one arrow of the workflow |
| Payroll.RunKeepsInv | cmd/modapi/http/portal/admin.go:604-1645 | at every moment payment data accompanies exactly paying and paid, pay time exactly paid, submitted payslips have hex addresses, one open payroll per month |
| Payroll.RunEvolves | cmd/modapi/http/portal/admin.go:604-1645 | between any two moments statuses only advance, submitted months and totals are frozen, payslips only disappear, payment data stays |
| Payroll.AtMostFourChanges | cmd/modapi/http/portal/admin.go:604-1645 | a payroll changes its status at most four times |
| PayrollHistory.AuditsDecide | cmd/modapi/http/portal/admin.go:1010-1034 | a payroll is approved, being paid or paid if and only if an effective audit with "approve" came before, rejected if and only if one with "reject" did, and never both |
| PayrollHistory.PaymentsDecide | cmd/modapi/http/portal/admin.go:1089-1117 | it is being paid or paid if and only if one effective payment came before, and transaction and chain are those of that payment |
| PayrollHistory.ChecksDecide | cmd/modapi/http/portal/admin.go:1576-1634 | it is paid if and only if one effective status check came before, and the pay time is the time of that check |
| PayrollHistory.PayslipsAreItems | cmd/modapi/http/portal/admin.go:673-692 | until the next effective update, the payslips are the items of the request that wrote them, in order, minus the deleted ones |
| PayrollHistory.MonthAndTotal | cmd/modapi/http/portal/admin.go:770-772 | month and total are those of the request that last wrote the payroll |
| PayrollHistory.CreatorAndFlag | cmd/modapi/http/portal/admin.go:876 | the creator is the user of the creating call, and the flag is set if and only if an effective delete came before |
| PayrollHistory.NoteIsKept | cmd/modapi/http/portal/admin.go:936-938 | a note of an effective submission or audit stays where it was written |
| PayrollHistory.AppendedKeepsBoth | cmd/modapi/http/portal/admin.go:1018-1024 | appending a note keeps the old text in front, puts the note last, and breaks the line between them |
| PayrollHistory.CreateDecides | cmd/modapi/http/portal/admin.go:636-671 | a creation takes effect if and only if the month is a month and every payroll of it is rejected or paid |
| PayrollHistory.SubmitDecides | cmd/modapi/http/portal/admin.go:940-957 | a submission takes effect if and only if the payroll has payslips, all with hex addresses |
| PayrollHistory.WalletTextIsAccepted | cmd/modapi/http/portal/admin.go:949 | every address text of an EVM wallet is acceptable there |
| PayrollHistory.AcceptedTextIsAnAddress | cmd/modapi/http/portal/admin.go:949 | what is acceptable there spells twenty bytes |
| PayrollHistory.KnownMonths | cmd/modapi/http/portal/admin.go:1648-1655 | four digits of the year and two of a month 01 to 12, nothing else |
| BalanceFormat.TrimTrailingZeros | common/chain/chain_test.go:194-199 | the loop drops exactly the zeros at the end |
| BalanceFormat.FormatBalance | common/chain/chain_test.go:161-191 | the printed text, on nil, on every sign and every number of decimals |
| BalanceFormat.PrintsExactly | common/chain/chain_test.go:161-191 | the text denotes amount / 10^decimals if and only if the amount is not a negative number with a fraction |
| BalanceFormat.MinusOneTenth | common/chain/chain_test.go:161-191 | -1 with one decimal is printed as -1.9 and does not denote itself |
| BalanceFormat.FractionIsShortest | common/chain/chain_test.go:176-190 | a fraction is printed exactly when there is one, with at most the given places and no zero at the end |
| BalanceFormat.PrintingIsInjective | common/chain/chain_test.go:161-191 | different amounts print differently, negative ones included |
| Positional.ParseOfText | common/bip/evm_compatible.go:126 | a printed number reads back as itself, in every base |
| Positional.ParseOfPadded | common/system/rand.go:194 | a zero-padded number reads back as itself |
| Positional.PaddedWidth | common/system/rand.go:194 | a number that fits keeps exactly the padded width |
| Positional.MachineIntegers | common/bip/evm_compatible.go:207-226 | the unsigned integers of the program have 32 and 64 bits |

## Left out

- Routing, request binding, logins, response bodies and graceful shutdown: plumbing.
- Encryption of the master (AES-GCM, Argon2), HMAC, SHA-256, Keccak, BIP-39 and slip10: parameters or absent.
- MySQL beyond atomic transactions, row locks, the unique primary key and rollback; lock timeouts and deadlocks appear as aborts.
- WalletService.RunKeepsInv: calls are atomic there; the modules WalletTransactions and WalletUniqueness state what concurrent calls keep and when.
- WalletTransactions.RunIsConsistent: requests name their own tenant and the chain's own name; the other requests are treated with atomic calls.
- WalletService.Service.WalletCreate: the transaction left open by the early return is recorded but its connection is not modelled; a panic is an abort of the call, in the concurrent model only.
- Payroll.StepKeeps: each handler is one atomic step; their status checks sit outside the transaction, so finer interleavings are not covered.
- Payroll.Portal.PayrollCreate: the times of payrolls and payslips, except the pay time, are not modelled.
- BalanceQueries.TokenBalancesBatch: requests are not merged across concurrent callers (singleflight), and transport, timeouts and JSON are an oracle.
- BalanceQueries.MulticallBalanceOf: of the call data only the balanceOf call of each pair is modelled, not how multicall packs the calls and unpacks the entries.
- RpcPool.OnePoolPerNetwork: the configuration does not change while the program runs.
- BlockReference.HexToUint64: on text that is no number the result is what the library leaves behind, which is a parameter here.
- QueueProtocol.RunWakes: a handler that calls the wait group itself is not modelled; a handler that panics counts as one that ends.
- WorkQueue.DrainLoop: handlers are run to their end one after the other; QueueRefinement.ConsumerInAnyOrder covers every order of their steps.
- SlotQueue.Consumer: its inner loop never ends, because an empty batch is not an error, so there is nothing to prove about its termination.
- Size, First and Last of both queues: they only read.
- WalletAddresses.SolanaRow: the ed25519 derivation of a key along a path is a library function, so that different paths have different keys is not shown.
- KeyDerivation.WalletsHaveOwnLeaves: two keys may still share the twenty bytes of an address hash.
- TRON and Solana balance queries: the same chunking with one request per item.
- The dashboard total: its loop overwrites instead of adding, so no sum is promised.
- Roles and permissions, token interception, tenants, settings, logging, nonces and invite codes: lookups and randomness.
