# Relayer core, modelled and proved

The Sygma relayer carries deposits between chains. A group of relayers elects a coordinator, agrees on a
signing subset, signs with a shared key, and pays out on Bitcoin or on an EVM chain. This project models the
parts of that work where several steps, several relayers or several encodings have to fit together, and proves
what they promise for every input, every message order and every run.

Three things are written as systems of steps, with invariants over all runs:

* **Bully election** (`BullySystem`, `BullyConvergence`, `BullyDiscipline`, `BullyTermination`). A relayer is its rank
  in the session order, rank 0 being the highest. Messages lie in a bag and may arrive in any order, timers may fire at
  any time, relayers start at any time or never, and a message that reaches a relayer without a subscription is lost.
  `BullyElector` is the elector itself, as a class; subscribing, entering and leaving an election and handling a message
  are proved to be moves of that system.
* **First signing round** (`SigningAgreement`, `CoordinatorTrust`, `SigningProgress`). Initiate, Ready and Start messages
  among relayers with one static coordinator, and the processes of each relayer, which begin one by one and test for
  themselves whether they belong to the subset. `Signing` holds the methods behind it: collecting ready peers, picking
  the subset, waiting.
* **Bitcoin proposal statuses** (`ProposalRuns`, `ProposalSafety`, `RetryDiscipline`). Claims, parallel executions per
  resource, signatures, broadcasts, endings and retries against one status store. `ProposalClaims` and `ExecutionWatch`
  hold the methods, `PropStore` the store over its string-keyed database, and `ExecutionRefinement` shows that watching
  an execution is a run of that execution's steps.

The rest are algorithms proved against specifications: the Bitcoin transaction builder, the deposit codecs, the
subscription table, the gas batching of the EVM executor, the resharing parties and the Bitcoin block listener.

Conditions found on the way, each proved as an equivalence or shown by a concrete run:

* The election converges in every run if and only if no relayer may start its first election before it has
  subscribed, or there are fewer than two relayers (`ConvergesIff`). `Coordinator` starts the listener and the election
  side by side, and for any relayer that is early and any second one, `EarlyElectionDisagrees` gives a run after
  which the two follow different coordinators and neither can act any more.
* The guard at `comm/elector/bully.go:93` queues an Alive only if the sender ranks *below* the receiver, while the
  comment above it says the opposite. The model follows the code, and `NoEarlyExit` proves the consequence: no
  election ever ends early. `BoundIsReached` shows that the resulting 2^n - 1 rounds do occur.
* A start at exactly threshold + 1 ready holders cannot be jumped over, except when the threshold is 0 and the
  coordinator holds a share itself (`StartGuaranteedIff`); the topology demands a threshold of at least 1.
* All runs of the first signing round agree on a subset if and only if the coordinator runs this code itself
  (`AgreementIff`); otherwise it can make two relayers enter with different subsets (`RogueCoordinatorDivides`).
* A retry keeps the status invariant exactly when it leaves alone every key that a live execution holds
  (`RetryKeepsInvIff`). From any state of the invariant, retrying a deposit can be followed by two payments of it if
  and only if an execution holds it that waits for signatures of some input, or whose broadcast is not recorded yet
  (`RetryPaysTwiceIff`).
* A Bitcoin transaction always balances modulo 2^64. While payments and inputs fit 64 bits it balances exactly if and
  only if the inputs cover payments and fee (`BalancesExactlyIff`). The code only checks that they cover the payments:
  `ChangeCanBeNegative` gives transactions that are built with a negative change output, and `NegativeOutputIff` says
  when there is a negative output.
* Two relayers that can both build, with fees that fit 64 bits, build the same transaction if and only if they have the
  same metadata output and the same inputs, and read the final economy fee from one bucket of five (`BuildsAgreeIff`).
  Any two orders of the same unspent outputs give the same inputs if and only if no output taken ties with a later one
  in the order by block time and transaction id (`SelectionIsCanonicalIff`, `TwinOutputsDiverge`).
* Round trips of the deposit codecs hold exactly for the lengths named in the `…Iff` lemmas, and session identifiers
  containing a dash reduce the subscription table to one slot per message type (`DashedSessionsKeepOneSlot`).

Preconditions shared by several theorems: all relayers use the same peer list, peer keys (hashes of peer and
session) are distinct where an order has to be canonical, senders are authentic, and slices are shorter than 2^63.

## Model

| member | source | states |
|---|---|---|
| `Sorting.Sort` | tss/util/sort.go:25-34 | in-place sorting by any strict weak order gives a sorted permutation of the array |
| `Sorting.SortIsCanonicalIff` | tss/util/sort.go:25-34 | a sequence has exactly one sorted permutation if and only if no two different elements tie |
| `Sorting.PrefixIsForced` | tss/util/sort.go:29-34 | elements without ties come first, in the same order, in every sorted permutation |
| `Sorting.SortIsUnique` | tss/util/sort.go:29-34 | two sorted permutations of a tie-free sequence are identical |
| `Sorting.TieIsAmbiguous` | tss/util/sort.go:29-34 | every tie between different elements yields a second sorted permutation, which differs first at the tie |
| `SessionOrder.SortPeersForSession` | tss/util/util.go:12-23 | the result is a permutation of the peers ordered by session key |
| `SessionOrder.SessionOrderIsCanonicalIff` | tss/util/util.go:12-23 | the session order is the same for all relayers if and only if the keys are distinct |
| `SessionOrder.StaticCoordinator` | comm/elector/static.go:21-27 | no coordinator for an empty list, otherwise a listed peer that no other precedes |
| `SessionOrder.StaticCoordinatorsAgree` | comm/elector/static.go:21-27 | lists with the same members and distinct keys give the same coordinator, whatever their order and repetitions |
| `SessionOrder.IsParticipant` | tss/util/util.go:25-33 | true exactly for listed peers |
| `BullySystem.Elections` | comm/elector/bully.go:120-124 | a relayer challenges exactly the ranks above it, once each |
| `BullySystem.Selects` | comm/elector/bully.go:131-132 | a winner announces itself to everybody except itself |
| `BullySystem.StepKeepsWired` | comm/elector/bully.go:77-146 | every step keeps: Election messages go up, Alive messages come down, and no Alive is queued |
| `BullySystem.RunKeepsWired` | comm/elector/bully.go:77-146 | the same over every run |
| `BullySystem.ChallengeIsAnswered` | comm/elector/bully.go:138-142 | a delivered challenge that does not come from above is answered by exactly one Alive to the challenger and one challenge to every rank above the receiver, and reopens its election; nothing else changes |
| `BullySystem.NothingElseIsAnswered` | comm/elector/bully.go:138-146 | a challenge from above changes nothing, and a Select or an Alive sends nothing |
| `BullyConvergence.StartKeepsInv` | comm/elector/bully.go:119-124 | a newcomer of any rank, also a new highest one, keeps the settling invariant |
| `BullyConvergence.TimeoutKeepsInv` | comm/elector/bully.go:126-133 | self-selection keeps it: an announcement is on its way to everybody |
| `BullyConvergence.DeliverSelectKeepsInv` | comm/elector/bully.go:161-168 | a Select from the highest participant is taken and one from any other never displaces it |
| `BullyConvergence.DeliverElectionKeepsInv` | comm/elector/bully.go:138-145 | answering a challenge reopens the election and keeps the invariant |
| `BullyConvergence.VanishKeepsInv` | comm/p2p/libp2p.go:160-166 | an Alive, or a message lost on a relayer that takes no part, is never needed for settling |
| `BullyConvergence.StepKeepsInv` | comm/elector/bully.go:77-168 | every step that loses nothing on a started relayer keeps the invariant |
| `BullyConvergence.RunKeepsInv` | comm/elector/bully.go:77-168 | the same over every run |
| `BullyConvergence.Convergence` | comm/elector/bully.go:119-168 | in every quiescent state of every such run all participants follow the highest-ranked participant |
| `BullyConvergence.OrderlyIsAttentive` | comm/elector/bully.go:55-74 | subscribing before the first election rules out losses on started relayers |
| `BullyConvergence.Progress` | comm/elector/bully.go:119-146 | while something is in flight or somebody elects, a participant or the network can act |
| `BullyConvergence.ExhaustedRunsAgree` | comm/elector/bully.go:119-168 | a run in which nobody can act any more has agreed on the highest-ranked participant |
| `BullyDiscipline.DisciplineSuffices` | comm/elector/bully.go:55-74 | if nobody is early, every quiescent run has all participants following the highest-ranked one |
| `BullyDiscipline.EarlyElectionDisagrees` | comm/elector/bully.go:55-74 | for any number of relayers, any early one and any other, there is a run with only early relayers starting unsubscribed after which the two follow themselves, nothing is in flight and no participant can act |
| `BullyDiscipline.ConvergesIff` | comm/elector/bully.go:55-74 | for any set of relayers that may start before subscribing, every quiescent run agrees if and only if that set is empty or there are fewer than two relayers |
| `BullyTermination.RoundSpendsOne` | comm/elector/bully.go:119-124 | each election round lowers the potential by exactly one, challenges it sends included |
| `BullyTermination.OtherStepsSpendNothing` | comm/elector/bully.go:77-146 | no other step raises the potential, and only a lost challenge lowers it |
| `BullyTermination.StepLowersMeasure` | comm/elector/bully.go:77-146 | every step, also a lost message or a subscription, lowers a natural number |
| `BullyTermination.RunAccounts` | comm/elector/bully.go:77-146 | rounds, self-selections and steps of any run are accounted for by potential, open elections and measure |
| `BullyTermination.Termination` | comm/elector/bully.go:119-146 | n relayers go through at most 2^n - 1 election rounds and (2n + 1)(2^n - 1) + n steps, and in a quiescent state every round has ended in self-selection |
| `BullyTermination.BoundIsReached` | comm/elector/bully.go:119-146 | for every n there is a run with exactly 2^n - 1 election rounds |
| `BullyTermination.NoEarlyExit` | comm/elector/bully.go:91-101 | no run reaches a state in which an Alive ends an election early, and an Alive never changes a relayer |
| `BullyElector.RankIsPosition` | comm/elector/bully.go:148-159 | a peer's rank is its position in the sorted list |
| `BullyElector.RankIsLast` | comm/elector/bully.go:148-159 | with repetitions the last position counts |
| `BullyElector.AddressedIsExact` | comm/p2p/libp2p.go:76-96 | exactly one message of the kind for each listed peer other than the host |
| `BullyElector.ChallengesAreExact` | comm/elector/bully.go:120-124 | the challenges go exactly to the listed peers that rank above the host |
| `BullyElector.Elector.constructor` | comm/elector/bully.go:34-51 | for any peer list, a new elector has it sorted, has itself as coordinator, and has neither started nor subscribed |
| `BullyElector.Elector.Listen` | comm/elector/bully.go:77-84 | one move of the system: subscribed, and nothing else changes |
| `BullyElector.Elector.IsPeerIDHigher` | comm/elector/bully.go:148-159 | the search loop compares ranks, also for unlisted peers |
| `BullyElector.Elector.SetCoordinator` | comm/elector/bully.go:161-168 | for listed and unlisted peers the coordinator changes, by rank, as in the system: to a higher-ranked peer or to the host itself |
| `BullyElector.Elector.Broadcast` | comm/p2p/libp2p.go:56-99 | one message per reachable addressed peer except the sender, and an error exactly if an addressed peer is unreachable |
| `BullyElector.Elector.BeginElection` | comm/elector/bully.go:119-124 | challenges exactly the listed peers above the host, whatever the list; one move of the system if the list has the host and no repetitions |
| `BullyElector.Elector.EndElection` | comm/elector/bully.go:126-133 | self-selection with announcements to all listed peers, or giving up silently; one move of the system |
| `BullyElector.Elector.HandleMessage` | comm/elector/bully.go:89-145 | an Election that does not come from above is answered by one Alive to its sender and then exactly the challenges to the peers above; nothing else is answered; one move of the system for each kind of message, also from unlisted senders |
| `BullyElector.AnnouncementReachesAll` | comm/elector/bully.go:131-132 | broadcasting a Select to the peer list sends the announcements of the system |
| `BullyElector.ChallengesReachHigher` | comm/elector/bully.go:120-124 | broadcasting an Election to the peers above sends the challenges of the system |
| `Signing.SigningProcess.ReadyParticipants` | tss/ecdsa/signing/signing.go:216-228 | the ready peers that hold a key share, in order |
| `Filters.IntersectionFilters` | tss/ecdsa/signing/signing.go:216-228 | such a list keeps exactly the positions of listed members, in order |
| `Signing.SigningProcess.Ready` | tss/ecdsa/signing/signing.go:148-151 | ready exactly when threshold + 1 share holders are |
| `Signing.SigningProcess.StartParams` | tss/ecdsa/signing/signing.go:161-177 | the first threshold + 1 ready holders in session order |
| `Signing.SigningProcess.Run` | tss/frost/signing/signing.go:100-117 | a relayer enters exactly if the subset contains it; otherwise ECDSA keeps its old peers and FROST does not |
| `Signing.ReadyListIsExact` | tss/coordinator.go:236-278 | for any stream of ready messages the list has no duplicates and holds the host and exactly the senders that are not excluded |
| `Signing.ReadyCountsHolders` | tss/ecdsa/signing/signing.go:216-228 | the filtered list is duplicate-free and is the set of holders heard so far |
| `Signing.NothingIsCut` | tss/ecdsa/signing/signing.go:161-177 | at threshold + 1 ready holders the truncation discards nobody |
| `Signing.CutTakesFirst` | tss/ecdsa/signing/signing.go:161-177 | with more ready holders than needed, threshold + 1 of the largest keys are taken, in the order of their keys |
| `Signing.TryStart` | tss/coordinator.go:256-264 | a subset is produced exactly at threshold + 1 holders and consists of all of them |
| `Signing.Initiate` | tss/coordinator.go:236-290 | Start is sent at the first message that completes the quorum, with exactly the holders heard by then; otherwise the quorum was never met |
| `Signing.ThresholdIsHit` | tss/coordinator.go:236-278 | once more than threshold holders were heard, some message brought the count from threshold to threshold + 1 with a new holder, and fired |
| `Signing.ThresholdIsJumped` | tss/coordinator.go:236-278 | threshold 0, a share-holding host and another holder speaking first: no continuation ever starts |
| `Signing.StartGuaranteedIff` | topology/topology.go:124-126 | enough heard holders always start the signing if and only if the threshold is at least 1, the host holds no share, or no other holder can be heard |
| `Signing.RunAll` | tss/coordinator.go:344-351 | every process of a session makes the membership test for itself and ends with the peers its scheme leaves it; the session enters exactly if the host is in the subset |
| `Signing.RepliesAreExact` | tss/coordinator.go:314-327 | one ready message for each Initiate of the coordinator, or of anybody without one, in order |
| `Signing.WaitForStart` | tss/coordinator.go:294-363 | starts and Initiates of others than the coordinator are ignored, each other Initiate is answered, and the first Start or timeout decides |
| `SigningAgreement.OneCoordinator` | tss/coordinator.go:205-211 | equal holder sets give all relayers the same static coordinator |
| `SigningAgreement.AnnouncementMaySign` | tss/coordinator.go:250-278 | what a coordinator announces is threshold + 1 distinct share holders, itself among the ready ones |
| `SigningAgreement.CollectStep` | tss/coordinator.go:250-278 | collecting a ready message, up to the announcement, keeps the agreement invariant |
| `SigningAgreement.FollowStep` | tss/coordinator.go:328-352 | following a Start message keeps it |
| `SigningAgreement.BeginStep` | tss/coordinator.go:344-351 | a process that begins, at any later time and of either scheme, keeps it |
| `SigningAgreement.StepKeepsInv` | tss/coordinator.go:205-363 | every step keeps it |
| `SigningAgreement.RunKeepsInv` | tss/coordinator.go:205-363 | the same over every run |
| `SigningAgreement.Agreement` | tss/coordinator.go:205-363 | with a coordinator that runs this code, every run has one subset such that every process that entered, at any relayer, works with it and belongs to it, every process that gave up does not belong to it, none began before a start, and after a start it is threshold + 1 distinct share holders |
| `SigningProgress.InitiateIsAnswered` | tss/coordinator.go:314-327 | a waiting relayer sends Ready to its coordinator for each Initiate of it |
| `SigningProgress.ReadyIsCounted` | tss/coordinator.go:250-278 | a new ready holder is listed; at threshold + 1 the coordinator starts with a subset and sends that same subset in a Start to every other peer |
| `SigningProgress.StartIsFollowed` | tss/coordinator.go:328-352 | a waiting relayer starts with exactly the subset its coordinator sends |
| `SigningProgress.EverybodyCanStart` | tss/coordinator.go:205-363 | with a threshold of at least 1 and more honest holders than that, some run brings every relayer to start with one subset of threshold + 1 holders |
| `CoordinatorTrust.RogueCoordinatorDivides` | tss/coordinator.go:328-352 | a coordinator outside the code can make any two of its relayers enter signing with different subsets |
| `CoordinatorTrust.AgreementIff` | tss/coordinator.go:205-363 | all runs agree on a subset if and only if the coordinators of all relayers run this code |
| `PropStore.KeyIsInjective` | store/propstore.go:18 | two different (source, destination, nonce) triples never share a database key |
| `PropStore.StoreRefinesTable` | store/propstore.go:36-65 | any sequence of writes and reads answers as a map from triples to statuses with Missing as default |
| `PropStore.Store.StorePropStatus` | store/propstore.go:36-47 | a successful write changes one triple, a failed one nothing |
| `PropStore.Store.GetPropStatus` | store/propstore.go:50-65 | the status of the triple, Missing if never written or if the database fails |
| `ProposalClaims.ClaimIsExact` | chains/btc/executor/executor.go:377-415 | a claim takes each Missing or Failed key once, marks it Pending and changes no other |
| `ProposalClaims.ClaimFilters` | chains/btc/executor/executor.go:377-403 | the claim lists, in order, exactly the first proposal of each claimable key |
| `ProposalClaims.ProposalsForExecution` | chains/btc/executor/executor.go:377-415 | the loop over the store claims everything up to the first database failure and succeeds exactly if there is none; earlier claims stay |
| `ProposalClaims.SetAllIsExact` | chains/btc/executor/executor.go:417-430 | exactly the listed keys get the new status |
| `ProposalClaims.WrittenFilters` | chains/btc/executor/executor.go:417-430 | exactly the proposals whose write does not fail are updated |
| `ProposalClaims.StoreProposalsStatus` | chains/btc/executor/executor.go:417-430 | the loop over the store performs that update for every proposal whose write does not fail |
| `ProposalClaims.IsExecuted` | relayer/retry/retry.go:66-89 | says whether the key is Executed and turns Pending into Failed; a failing read or write is an error and changes nothing |
| `ProposalClaims.RetryIsExact` | relayer/retry/retry.go:33-89 | the selected deposits are those of the resource not Executed, in order; each ends claimable and no other key changes |
| `ProposalClaims.UnexecutedFilters` | relayer/retry/retry.go:45-62 | the selection keeps, in order, exactly the deposits of the resource that are not Executed |
| `ProposalClaims.RetryWithIsSound` | relayer/retry/retry.go:33-89 | whatever database calls fail, selected deposits were not Executed and end claimable, and no other key changes |
| `ProposalClaims.PassedOver` | relayer/retry/retry.go:47-60 | a deposit of the resource is left out only if it was Executed or a database call failed for it |
| `ProposalClaims.RetryWithKeepsOrder` | relayer/retry/retry.go:45-62 | also with failing database calls the selection keeps the order of the deposits |
| `ProposalClaims.RetryWithoutFaults` | relayer/retry/retry.go:33-89 | without failures the selection is the exact one |
| `ProposalClaims.FilterDeposits` | relayer/retry/retry.go:33-64 | the loops perform that selection on the deposits of the destination, none if there is no entry, skipping deposits whose database calls fail |
| `ProposalClaims.RetryThenClaim` | relayer/retry/retry.go:33-89 | a claim after a retry takes every unexecuted deposit exactly once, repeated ones included |
| `ProposalSafety.GroupFilters` | chains/btc/executor/executor.go:104-107 | the proposals of one resource, in order |
| `ProposalSafety.LaunchIsExact` | chains/btc/executor/executor.go:109-122 | every resource whose transaction can be built gets an execution of exactly its claimed transfers, with one empty slot per input, and nothing else does |
| `ProposalSafety.ExecuteStartsAll` | chains/btc/executor/executor.go:91-124 | after Execute the old executions are unchanged and the new ones are exactly those of the claimed resources that can be built |
| `ProposalSafety.NewlyHeldIff` | chains/btc/executor/executor.go:91-124 | a new execution holds a key if and only if the key was claimed with a resource that can be built |
| `ProposalSafety.LaunchHoldings` | chains/btc/executor/executor.go:91-124 | starting one execution per resource hands each claimed key to one execution and disturbs no other |
| `ProposalSafety.ExecuteKeepsExclusive` | chains/btc/executor/executor.go:91-124 | claiming and launching keeps executions exclusive: one holder per key, held keys Pending, sent keys Executed or about to be |
| `ProposalSafety.SignKeepsExclusive` | chains/btc/executor/executor.go:199-222 | signatures and the broadcast keep it |
| `ProposalSafety.StepSendsWhenSigned` | chains/btc/executor/executor.go:199-222 | every step, safe or not, keeps: a key is sent exactly if some execution holding it was broadcast with all inputs signed |
| `ProposalSafety.EndKeepsExclusive` | chains/btc/executor/executor.go:188-236 | recording a success or a failure keeps executions exclusive |
| `ProposalSafety.RetryKeepsInvIff` | relayer/retry/retry.go:66-89 | a retry keeps the whole invariant if and only if it names no key held by a live execution |
| `ProposalSafety.StepKeepsExecuted` | chains/btc/executor/executor.go:188-236 | no step leaves Executed, retries included |
| `ProposalSafety.RunKeepsInv` | chains/btc/executor/executor.go:188-236 | the invariant and Executed last over every safe run |
| `ProposalSafety.ProposalsAreSafe` | chains/btc/executor/executor.go:188-236 | over every safe run each key has at most one live execution and is Pending while held, is sent at most once and exactly if an execution broadcast it fully signed, and stays Executed from any point of the run on |
| `RetryDiscipline.UnsafeRetryPaysTwice` | relayer/retry/retry.go:66-89 | from every state of the invariant, retrying a key whose holder collects signatures of some input, or was broadcast successfully or not, has a continuation without retries that sends the key twice |
| `RetryDiscipline.SpareRetryPaysOnce` | relayer/retry/retry.go:66-89 | in every other state no continuation without retries does, also if an execution without inputs holds the key |
| `RetryDiscipline.RetryPaysTwiceIff` | relayer/retry/retry.go:66-89 | a retry can be followed by two payments if and only if such an execution holds the key |
| `ExecutionWatch.SignaturesFilled` | chains/btc/executor/executor.go:367-375 | true exactly if no slot is empty |
| `ExecutionWatch.SlotsAreLatest` | chains/btc/executor/executor.go:208-209 | each slot holds the signature that came last for its input, and nothing if none came |
| `ExecutionWatch.OutcomeIsExact` | chains/btc/executor/executor.go:199-235 | a watch ends by timeout, by cancellation, or by the signature that leaves no input without one, and then sends the latest signature of every input |
| `ExecutionWatch.GoesOnIff` | chains/btc/executor/executor.go:204-213 | a watch goes on exactly over empty results and signatures that leave some input without one |
| `ExecutionWatch.WatchExecution` | chains/btc/executor/executor.go:188-236 | the first ending event decides the outcome, the other relayers are told exactly of a failed send, and the store is marked for that outcome only, where writing does not fail |
| `ExecutionRefinement.CollectingIsARun` | chains/btc/executor/executor.go:199-211 | until its first ending event a watch is a run of signature steps that sends nothing |
| `ExecutionRefinement.WatchIsARun` | chains/btc/executor/executor.go:188-236 | up to its first ending event a watch is a run of its execution's own steps with the same statuses, in which a transaction is sent exactly if the watch sends one and no other execution changes |
| `BtcTransaction.Utxos` | chains/btc/mempool/mempool.go:63-88 | the fetched outputs ordered by block time, then transaction id |
| `BtcTransaction.SortedByAge` | chains/btc/mempool/mempool.go:79-85 | older blocks come first, and within a block the lexicographically smaller transaction id |
| `Text.TextIsLexicographic` | chains/btc/mempool/mempool.go:79-85 | comparing transaction ids is the lexicographic order |
| `BtcTransaction.UtxoOrderIsCanonicalIff` | chains/btc/mempool/mempool.go:79-85 | that order is unique if and only if outputs that differ have different (time, id) pairs |
| `BtcTransaction.RateRoundsUp` | chains/btc/executor/executor.go:343-350 | the rate is a multiple of 5 above the economy fee by at most 5 for every fee except the largest, and two fees share it exactly if they share a bucket of five |
| `BtcTransaction.FeeWithoutWrap` | chains/btc/executor/executor.go:343-350 | if the size and the plain product fit 64 bits, the fee is the plain product |
| `BtcTransaction.FeeAboveEstimate` | chains/btc/executor/executor.go:238-258 | at one rate the fee exceeds the estimate by (180 (inputs - proposals) + 34) rates |
| `BtcTransaction.TakenFrom` | chains/btc/executor/executor.go:318-341 | the number of inputs taken: the first whose running sum passes the target, or all of them |
| `BtcTransaction.TakenIsShortest` | chains/btc/executor/executor.go:318-341 | without overflow it is the shortest prefix worth more than the target |
| `BtcTransaction.TotalsAdd` | chains/btc/executor/executor.go:331-336 | the value of inputs adds up over any split of them |
| `BtcRawTx.PaymentsAreExact` | chains/btc/executor/executor.go:277-296 | payments exist exactly if every recipient has a script, and payment i is the amount of proposal i to the script of its own recipient |
| `BtcRawTx.OutPointsAreExact` | chains/btc/executor/executor.go:325-334 | inputs exist exactly if every transaction id has a hash, and input i points to output i of those used |
| `BtcRawTx.AddOutputs` | chains/btc/executor/executor.go:273-316 | one payment per proposal in order, then the metadata output, and the amount modulo 2^64; nothing on any error |
| `BtcRawTx.AddInputs` | chains/btc/executor/executor.go:318-341 | the taken prefix becomes the inputs in order; a bad hash within it is an error |
| `BtcRawTx.RawTx` | chains/btc/executor/executor.go:238-271 | the transaction is the one determined by the sorted outputs and the answers of the network, errors included |
| `BtcRawTx.BuildIsExact` | chains/btc/executor/executor.go:238-271 | a built transaction pays proposal i at output i, then has the metadata output and, unless it is zero, the change to the resource address, and spends exactly the outputs used |
| `BtcRawTx.OutputsIff` | chains/btc/executor/executor.go:273-316 | outputs exist if and only if every recipient has a script and the metadata id was obtained and has one |
| `BtcRawTx.BuildsIff` | chains/btc/executor/executor.go:238-271 | a transaction is built if and only if there are outputs, both fee readings and the unspent outputs were obtained, those taken can be spent and cover the payments, and change, if any, can be returned |
| `BtcRawTx.AmountsAdd` | chains/btc/executor/executor.go:296-296 | amounts add up over any split of the proposals |
| `BtcRawTx.ValuesAdd` | chains/btc/executor/executor.go:293-294 | so do the values of outputs |
| `BtcRawTx.PaymentsPayAmounts` | chains/btc/executor/executor.go:273-296 | the payments add up to the amounts minus 2^64 for each amount of 2^63 or more, and none is negative exactly if there is no such amount |
| `BtcRawTx.BalancesModulo` | chains/btc/executor/executor.go:238-271 | for all amounts and fees, outputs and fee equal the inputs up to a multiple of 2^64 |
| `BtcRawTx.BalancesExactlyIff` | chains/btc/executor/executor.go:238-271 | while payments and inputs fit 64 bits, payments, fee and change equal the inputs if and only if the inputs cover payments and fee, and exceed them by 2^64 otherwise |
| `BtcRawTx.NegativeOutputIff` | chains/btc/executor/executor.go:238-271 | for all amounts and fees, no output is negative if and only if no amount and not the change reaches 2^63 |
| `BtcRawTx.TransactionBalances` | chains/btc/executor/executor.go:238-271 | while payments and inputs fit 64 bits, the exact ranges of the surplus over payments and fee in which the signed outputs and the fee equal the inputs, and in which no output is negative; below 2^63 always, and exactly without a deficit |
| `BtcRawTx.ChangeCanBeNegative` | chains/btc/executor/executor.go:252-270 | one payment from one unspent output that covers it but not the fee is built with a negative change output |
| `BtcRawTx.EarlyStopLeavesChange` | chains/btc/executor/executor.go:238-271 | inputs that pass the target, the last one included, and are fewer than the proposals leave change above 146 rates |
| `BtcRawTx.EarlyStopGathers` | chains/btc/executor/executor.go:318-341 | leaving unspent outputs over means that the target was passed |
| `BtcAgreement.SelectionIsCanonicalIff` | chains/btc/executor/executor.go:318-341 | all orders of one set of outputs give the same inputs if and only if no output taken ties with a different later one |
| `BtcAgreement.BuildsAgreeIff` | chains/btc/executor/executor.go:238-271 | two relayers that can both build, with fees that fit 64 bits, build the same transaction if and only if metadata output and inputs are the same and the final fees share a bucket |
| `BtcAgreement.RelayersBuildTheSame` | chains/btc/executor/executor.go:238-271 | relayers with the same outputs in any sorted order, the same metadata id and fees in the same buckets build the identical transaction, or all fail, if no output taken ties with a later one |
| `BtcAgreement.RelayersBuildTheSameIff` | chains/btc/mempool/mempool.go:79-85 | a transaction that can be built comes out the same for every sorted order if and only if no output taken ties with a later one |
| `BtcAgreement.TwinOutputsDiverge` | chains/btc/mempool/mempool.go:79-85 | two outputs of one transaction, each enough for the target, can be sorted both ways and give transactions with different inputs |
| `Bytes.WordInvertsNumber` | chains/evm/executor/message-handler.go:72-91 | left-padding the minimal bytes of a number read from bytes gives those bytes back |
| `Bytes.NumberOfWord` | chains/evm/executor/message-handler.go:72-91 | a padded word reads back as the number it was written from |
| `Bytes.WordLength` | chains/evm/executor/message-handler.go:72-91 | a padded word has the requested width if and only if the number fits |
| `Bytes.LowBytes` | chains/evm/listener/depositHandlers/permissionless.go:55-55 | the low 64 bits of a number are its last eight bytes |
| `PermissionlessCodec.WriteProposal` | chains/evm/executor/message-handler.go:72-91 | what is written parses back to the payload exactly if the payload is writable, and equals any calldata the payload was parsed from |
| `PermissionlessCodec.PermissionlessGenericMessageHandler` | chains/evm/executor/message-handler.go:50-91 | succeeds exactly if all five fields are bytes, with the proposal of those fields |
| `PermissionlessCodec.PrintUndoesParse` | chains/evm/listener/depositHandlers/permissionless.go:25-51 | printing any parsed deposit gives the calldata back byte for byte |
| `PermissionlessCodec.ParseUndoesPrint` | chains/evm/listener/depositHandlers/permissionless.go:25-51 | parsing any printed writable payload gives the payload back |
| `PermissionlessCodec.ParseUndoesPrintIff` | chains/evm/listener/depositHandlers/permissionless.go:25-51 | parsing a printed payload gives it back if and only if the fee is 32 bytes, the lengths fit their prefixes and the total is at least 76 bytes |
| `PermissionlessCodec.LayoutIsParsed` | chains/evm/listener/depositHandlers/permissionless.go:25-55 | fee, sized signature, contract, depositor and data in this order parse to the payload with these fields, and the gas limit is the last eight bytes of the fee |
| `TokenCodec.RaisedWord` | chains/evm/listener/depositHandlers/erc20.go:53-58 | the gas word grows by 100000 if and only if that fits its width |
| `TokenCodec.HandleErc20Deposit` | chains/evm/listener/depositHandlers/erc20.go:31-60 | parses as specified, rewrites the array in place exactly on success, and amount and recipient still show their original bytes |
| `TokenCodec.ERC20MessageHandler` | chains/evm/executor/message-handler.go:93-125 | succeeds exactly for two or three byte fields, with the ERC20 layout |
| `TokenCodec.Erc20PrintsIff` | chains/evm/listener/depositHandlers/erc20.go:37-60 | the amount is the first word of the handler response if there is one, and printing a parsed deposit gives that amount and the rest of the (rewritten) calldata exactly if the length word is below 2^63 |
| `TokenCodec.GasLimitIff` | chains/evm/listener/depositHandlers/erc20.go:53-58 | there is a gas limit exactly with a message, and without a carry it is the last eight bytes of the rewritten gas word |
| `TokenCodec.Erc20LayoutWithMessage` | chains/evm/listener/depositHandlers/erc20.go:45-60 | amount, length, recipient, gas word and message in this order parse to amount, recipient and the message with the raised gas word |
| `TokenCodec.Erc20PrintUndoesParseIff` | chains/evm/executor/message-handler.go:93-125 | printing a parsed deposit gives the calldata up to the recipient, or the whole rewritten calldata if a message follows, exactly if the length word is below 2^63 |
| `TokenCodec.Erc20LongLength` | chains/evm/listener/depositHandlers/erc20.go:45-50 | a length word 2^64 above the recipient length parses to the same payload, and then the calldata is not printed back |
| `TokenCodec.RewriteRaisesGasIff` | chains/evm/listener/depositHandlers/erc20.go:53-58 | the rewrite touches one word, and raises it by 100000 if and only if the sum fits 256 bits |
| `TokenCodec.ERC721MessageHandler` | chains/evm/executor/message-handler.go:127-157 | succeeds exactly for three byte fields, with the ERC721 layout |
| `TokenCodec.Erc721PrintUndoesParseIff` | chains/evm/listener/depositHandlers/erc721.go:27-59 | printing a parsed deposit gives the calldata up to the metadata exactly if both length words are below 2^63 |
| `TokenCodec.Erc721LongLength` | chains/evm/listener/depositHandlers/erc721.go:27-59 | either length word may lie 2^64 above the length and parses to the same payload, and the calldata is printed back exactly if neither does |
| `SubscriptionId.SplitAtDash` | comm/subID.go:46-62 | splitting at dashes distributes over joining with a dash |
| `SubscriptionId.UnwrapGeneratedIff` | comm/subID.go:18-62 | a generated identifier unwraps to its own parts if the session has no dash and the type is known, and to an error otherwise |
| `Subscriptions.SessionSubscriptionManager.GetSubscribers` | comm/p2p/subscription.go:28-43 | every channel of the (session, type) entry, each slot once |
| `Subscriptions.SessionSubscriptionManager.SubscribeTo` | comm/p2p/subscription.go:45-66 | files the channel in one slot of one entry and leaves all other entries alone |
| `Subscriptions.SessionSubscriptionManager.UnSubscribeFrom` | comm/p2p/subscription.go:68-85 | removes at most the slot its identifier names, for all entries |
| `Subscriptions.TableHoldsLiveChannels` | comm/p2p/subscription.go:28-85 | for addressable sessions and fresh times any history leaves exactly the subscriptions that were not cancelled |
| `Subscriptions.DashedSessionsKeepOneSlot` | comm/p2p/subscription.go:28-85 | for any other session any history leaves the last channel only, and cancelling does nothing |
| `GasBatching.UnexecutedFilters` | chains/evm/executor/executor.go:196-211 | exactly the proposals that are not executed are batched, in order |
| `GasBatching.TotalGasIsExact` | chains/evm/executor/executor.go:213-219 | without overflow the gas is one transfer cost per proposal plus the limits named |
| `GasBatching.ExtendKeepsBatches` | chains/evm/executor/executor.go:187-233 | adding a proposal below the maximum keeps the batches well formed |
| `GasBatching.CloseKeepsBatches` | chains/evm/executor/executor.go:187-233 | closing a batch, charged for the proposal that opens the next one, keeps them well formed |
| `GasBatching.ProposalBatches` | chains/evm/executor/executor.go:187-233 | fails exactly on a failed lookup; otherwise the batches concatenate to the unexecuted proposals in order, only the first may be empty, recorded limits add up to the total gas, every closed limit reaches the maximum, and the gas of each batch (for later ones without its first proposal) stays below it, all modulo 2^64 |
| `Resharing.ExcludePeers` | tss/ecdsa/common/utils.go:58-68 | the peers not excluded, in order |
| `Filters.ExclusionFilters` | tss/ecdsa/common/utils.go:58-68 | such a list keeps exactly the positions of peers not excluded, in order |
| `Resharing.PeersIntersection` | tss/ecdsa/common/utils.go:70-80 | the old peers that are also new ones, in order |
| `Resharing.PickedIsSorted` | tss/ecdsa/common/utils.go:70-80 | filtering a sorted list is sorting the filtered one |
| `Resharing.ResharingProcess.MakeStartParams` | tss/ecdsa/resharing/resharing.go:167-175 | the key threshold and the key peers that are still peers |
| `Resharing.ResharingProcess.ValidateStartParams` | tss/ecdsa/resharing/resharing.go:192-209 | each verdict exactly under its condition, and the key peers are sorted in place only after the threshold checks |
| `Resharing.HonestParamsAreAccepted` | tss/ecdsa/resharing/resharing.go:167-209 | parameters made by an honest coordinator are accepted by every relayer with the same peer sets, whatever the orders |
| `Resharing.PartiesFromPeers` | tss/ecdsa/common/utils.go:33-41 | one party per peer in key order, numbered by position |
| `Resharing.SortParties` | tss/ecdsa/resharing/resharing.go:234-249 | old parties first, then the newcomers in order with running indices; out of bounds exactly if they do not fit |
| `Resharing.SortPartiesCompletesIff` | tss/ecdsa/resharing/resharing.go:234-249 | every slot is filled by a permutation of the parties if and only if every old party is among them |
| `Resharing.AcceptedPartiesAreNumbered` | tss/ecdsa/resharing/resharing.go:192-249 | for accepted parameters at a share holder every party's index is its position |
| `BtcListener.HandleBlock` | chains/btc/listener/listener.go:87-101 | handlers see the block in order up to the first failure, with enough confirmations |
| `BtcListener.ListenToEvents` | chains/btc/listener/listener.go:59-111 | the log of handler calls and stores is well formed over any turns, and the current block is the start plus the finished ones |
| `BtcListener.StartsAtFirstHead` | chains/btc/listener/listener.go:82-85 | without a configured block listening starts at the first head that can be read |
| `BtcListener.MovesOnIff` | chains/btc/listener/listener.go:87-108 | a turn moves on to the next block exactly if the head is readable and at least the confirmations ahead and every handler succeeds |
| `BtcListener.StoresAreConsecutive` | chains/btc/listener/listener.go:103-108 | stores are attempted once per block, for consecutive blocks from the start |
| `BtcListener.StoredBlocksWereHandled` | chains/btc/listener/listener.go:95-108 | directly before each store every handler handled that block successfully, in handler order |

## Left out

- BtcRawTx.TransactionBalances: payments and inputs fit 64 bits; beyond that `BalancesModulo` and `NegativeOutputIff` apply.
- BullyElector.Elector.HandleMessage: sends reach their receivers; `Broadcast` models unreachable peers, but the elector ignores its errors and the system does not lose such messages.
- ExecutionWatch.WatchExecution: signature identifiers index the transaction's inputs, as the executor assigns them.
- Signing.SigningProcess.Run: only the head that checks the subset; the threshold cryptography behind it is abstract.
- SigningAgreement.Agreement: only the first round; retries after it, and waiting without a known coordinator, accept a Start from anyone.
- ProposalClaims.ProposalsForExecution: an error return leaves the source's mutex held, which blocks every later claim; the mutex is not modelled.
- ProposalSafety.ProposalsAreSafe: in these runs store calls succeed and relayers do not crash; the methods on the store do model its failures.
- PermissionlessCodec.PermissionlessGenericMessageHandler: fewer than five fields are excluded; the source indexes them unchecked.
- BtcListener.ListenToEvents: the block number is a value, so handlers that would alter the shared big integer are not modelled.
- Mutual exclusion of sessions in the coordinator: the pending check is outside its lock, so no claim is made.
- Durations: tickers and timeouts are steps or events without real time; the bully wait time and cancellation are not modelled.
- Ping messages of the elector: nothing sends them.
- JSON encodings of protocol messages: taken as the identity.
- Slices beyond a slice's length but within its capacity: treated as out of range in the deposit parsers.
- Address scripts, transaction hashes, taproot signature hashes, the metadata upload and mempool answers: parameters.
- Peer and party keys: abstract numbers instead of hashes.
- Order of iteration over Go maps: left open; for the subscription table any order, for resources any order of executions.
- ERC1155, the generic deposit handler, gas metadata and the EIP-712 hash: calls into libraries or easy members.
- Decoding of Bitcoin amounts and nonces: floating point and hashes.
- Watching an EVM execution, key generation, FROST resharing, Substrate, topology fetching, key share files, libp2p transport, configuration, CLI and metrics: plumbing or library code.
