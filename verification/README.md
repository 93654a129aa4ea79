# A verified model of the btcpool mining pool

The pool takes shares from stratum miners, finds blocks with them, and credits the miners once the
chain has buried those blocks. This project models that whole path in Dafny and proves what the pool
is trusted for: that every found block is in one place and pays once, that the books balance in every
state, that rewards add up, that the work a miner is given and judged by is what it seems to be.

The source's objects are classes here, their maps and lists are fields changed in place, and its
loops are loops. Each such method is proved against a function of the old state; the theorems are
about those functions.

## How it is laid out

- **Money and blocks.** `FiniteSums`, `Rewards`, `Text`, `Rows`, `Books` and `Ledger` give the
  arithmetic, the printed rows and every storage transaction as functions on values. `SortedSets` and
  `RedisClient` are the storage client, command by command, refining `Ledger`; `Payments` is about the
  lists it keeps beside the books.
  `Lifecycle` is the pool as a step machine: shares, found blocks (frozen, then listed), payments,
  and an unlocker that can fail or be restarted between any two writes. A write ends applied, refused, or
  applied without the unlocker learning of it, and a credit log may fail to be read just before one.
  `Invariants`, `Preservation` and `Safety` prove one invariant of all its steps; `Runs`, `Payouts` and
  `Credits` draw the theorems about whole runs from it, `Contributions` follows each miner's work to the
  rounds that pay for it and `Provenance` each block's amounts to what it pays, and `Reorganised` holds
  two runs worth looking at.
  `Passes` and `BlockUnlocker` are the unlocker itself, and each of its passes is proved to be a
  stretch of such a run.
- **Work.** `PowHistory` is the duplicate check against the full history of submissions. `Wire`,
  `ScriptNumbers` and `Coinbase` build the coinbase halves and parse what miners complete.
  `Difficulty` is the target arithmetic, `Merkle` and `BlockAssembly` the checked header and the
  submitted block, `Templates` the template machine with its shared, growing maps, `Stratum` the pool
  of connection tags, `PolicySpec` and `Policy` the peer records, and `ShareProcessing` what becomes
  of a submission, down to the ledger. `SubmissionIsRun` closes the circle: what submissions write are
  steps of the machine above.

## What is taken for granted

- One unlocker runs, with fixed configuration. The WATCH in the storage client covers the credit log
  only, so nothing is claimed about two.
- Every found block brings a nonce no earlier found block had. The code keys rounds by height and
  nonce and matches the chain by nonce alone. `Payouts.FreezeAccounts` says exactly what a repeated
  key costs.
- A block hash determines its nonce (`nonceOf`), and hashes on the chain have at least ten
  characters, which the log line that prints the first ten needs.
- Heights are below 2^53, so that ZSET scores are exact, and amounts stay inside int64. Where a height
  is below 3 the duplicate check wraps; `PowHistory.LowHeightForgetsAll` says what happens then.
- A found block's revenue is the code's own sum, coinbase value plus total fees, although the coinbase
  value of a block template already includes the fees (BIP 22, section "Block Template Request").
- Libraries are parameters: the hash behind a job id, transaction ids, Merkle functions, a header's
  hash, the unpacking of a transaction, the script for the pool's address. Theorems that need a fact
  about one name it (`FoldsBranches`, `MakesBranches`, `NeverZero`). An id is 16 digits of a hash, so ids
  may collide; `Templates.NoCollisions` asks only that the first halves of the jobs at hand do not. A
  transaction is read in the plain wire format, without witnesses.
- That the node's answers have the right data for their transaction ids is a hypothesis of the theorems on
  submitted blocks (`AnswersAreRight`); that stored templates then have it is proved.
- Rounding to 32-bit floating point is a parameter of the policy that keeps order and keeps the counts of
  a batch (`PolicySpec.RoundsLikeFloat`), as it does for batches of up to 2^24 shares.
- A node's target is not zero; the code would divide by it.
- Clocks, the node's answers, and how each storage call ends are parameters too, and arbitrary.

## Where the code does less than one would think

Each of these is stated exactly, as a condition under which the expected property holds.

- A credit log that cannot be read is deleted all the same, and the credit is then never taken back: in
  every run a miner's immature amount is what the open logs hold for it plus what was deleted unread
  (`Payouts.ImmatureIsOpenAndUnread`).
- A block that is reorganised to another hash with the same nonce between its two passes leaves its
  provisional credit open (`Payouts.LogClosesIffSameHash`), for the rest of the run
  (`Credits.OtherHashLeavesCreditForGood`); there are such runs (`Reorganised.OtherHashIsReached`).
- A block the first pass takes for an orphan is credited nothing, and if the chain names its nonce again
  by the second pass it is paid all the same, out of nothing immature. A payout is preceded by a credit
  of its block if and only if the block was no orphan (`Credits.PayoutWasCreditedIff`,
  `Credits.OrphanPaysUncredited`); there are such runs (`Reorganised.OrphanIsReached`).
- A second provisional credit under the same key would not be logged (`Books.CreditImmatureIff`).
- A found block whose storing is cut short after its transaction stays a frozen round without a row
  (`RedisClient.RedisClient.WriteBlock`). Unless something lists it, which nothing in the code does later, it
  stays so for the rest of the run and is neither credited nor paid (`Credits.UnlistedIsNeverPaid`).
- A share answered as valid is credited if and only if it is no block the node refused, its duplicate
  check went through and its transaction was not refused (`ShareProcessing.ValidIsCreditedIff`). Credited
  or not, its key is kept, and a resubmission within the window is a duplicate
  (`ShareProcessing.ResubmissionIsDuplicateIff`).
- The pool's fee goes to the configured address in lower case, so an address with a capital letter gets
  none of it (`Rewards.FeeReachesItsAddressIff`).
- A ban can end early, with the cleanup of an idle peer (`PolicySpec.BansLastIff`); the same cleanup
  restores the limit of connections (`Policy.CleanupKeepsLimitIff`). With limits near the ends of 32 bits
  the counter overflows and lets peers in (`PolicySpec.OverflowAdmits`).
- With more than 65536 connections extranonces repeat (`Stratum.TagsFitExactly`). With fewer, registered
  sessions differ as long as none is left behind by a flood
  (`Stratum.StratumServer.RegisteredAreDisjoint`); one that is left behind can always be given a twin
  (`Stratum.FloodedSessionGetsTwin`).
- A template fetch that is overtaken keeps all jobs in use, without announcing a block, if and only if the
  maps it began with hold all of them but its own: always if they are the maps in use, never for another
  height where ids do not collide (`Templates.TemplateServer.FinishOvertaken`). The height alone does not
  decide: two overlapping fetches can announce one block with two sets of maps
  (`Templates.AnnouncedTwice`).
- Two jobs for one height made in one second have one id (`Templates.SameSecondSameId`), and the later
  replaces the earlier unless they are equal (`Templates.TemplateServer.AnnouncedIdsKeepJobsIff`).
- Two payments of one amount to one miner, pending at once, are one entry of the list of pending payments;
  rolling back what is listed then leaves the other pending (`Payments.TwinPaymentIsLost`). The amounts
  stay what the list says exactly if no payment is debited while the same one is listed, nor settled while
  it is not (`Payments.DebitAgreesIff`, `Payments.RollbackAgreesIff`, `Payments.PayAgreesIff`).
- Extra coinbase data of more than 75 bytes is no push of that data (`Coinbase.ScriptPushes`).

## Model

| member | source | states |
|---|---|---|
| Runs.EveryStateIsSafe | payouts/unlocker.go:94-333 | In every run, with failures and restarts between any two storage steps and credit logs that cannot be read, ZSETs, rounds, credit logs, what of them was lost, balances and the pass in progress agree with one history of where each block is |
| Safety.StepKeepsInv | payouts/unlocker.go:150-333 | Every single step of the pool keeps that invariant, from any state that has it |
| Safety.DecisionsAreSound | payouts/unlocker.go:94-131 | Sorting listed blocks by the chain's answers yields only orphans and confirmed blocks that are where they were read, none of them twice |
| Safety.DecisionsFollowNonces | payouts/unlocker.go:94-148 | Whatever else is asked about, a listed block whose answer names its nonce comes out confirmed, with that answer's hash and the reward its amounts make, and any other comes out an orphan, with nothing but the mark changed |
| Runs.ExactlyOneRow | storage/redis.go:583-596 | A block has one row in exactly the ZSET of its stage and none elsewhere, from the moment its candidate row is written |
| Runs.RoundLivesUntilMaturity | storage/redis.go:583-596 | A block's round hash exists, under one key, exactly until the block matures; its sum is the row's share count, at least 1, so the reward division is defined |
| Runs.RunMovesForward | storage/redis.go:481-596 | Between any two moments of a run no block moves back, changes its height or its share count |
| Runs.StepMovesForward | storage/redis.go:481-596 | No step moves any block by more than one place |
| Runs.PaidAtMostOnce | storage/redis.go:499-541 | No two steps of a run credit balances for the same block |
| Runs.FrozenRoundsDoNotChange | storage/redis.go:239-248 | Only maturing its own block touches a frozen round |
| Runs.HaltedUnlockerIsSilent | payouts/unlocker.go:150-154 | Over any stretch of a run without a restart, a halted unlocker stays halted, no block moves and no credit is written or undone |
| Runs.ErrorsHalt | payouts/unlocker.go:156-333 | In every run a listing or round that cannot be read, an answer that is missing, or a write that is not acknowledged, whether it ran or not, halts the unlocker at once |
| Runs.PaymentsAreSteps | storage/redis.go:429-479 | Every debit, rollback and recorded payment is a step of the pool, from any state |
| Runs.RestartIsStep | payouts/unlocker.go:48-84 | A restart is possible at any moment; it clears the halt and the pass, and changes nothing that is stored |
| Payouts.RipeRewardsAreLogged | payouts/unlocker.go:335-378 | The rewards computed when a block matures are, key for key, what its log holds then, if it was no orphan; if it was, it has no log, and the rewards are not empty |
| Payouts.MaturingPaysTheLog | storage/redis.go:499-541 | Each miner's balance rises by its rewards, which are what was logged exactly if the block was no orphan before; its immature amount falls by the logged amount if the hash is the credited one and the log can be read, and otherwise not at all |
| Credits.PayoutPaysTheCredit | payouts/unlocker.go:294-308 | Every payout, in every run, of a block that was no orphan when it became immature pays a credit that an earlier step gave: each balance rises by what that step credited, and the immature amount falls by it exactly if the hash is that step's and the log is read |
| Credits.OrphanPaysUncredited | payouts/unlocker.go:112-123 | A payout of a block that was an orphan when it became immature has no earlier credit: balances rise by the rewards, and no immature amount falls |
| Credits.PayoutWasCreditedIff | payouts/unlocker.go:94-131 | A payout is preceded by a provisional credit of its block if and only if the block was no orphan when it became immature |
| Credits.CreditGivenIsKept | storage/redis.go:481-497 | From the step that credits a block until it matures, its row keeps the hash and its log is what that step credited |
| Credits.CreditKept | storage/redis.go:481-497 | Between any two moments at which a credited block is immature, its row, height and log are the same |
| Credits.WasCredited | payouts/unlocker.go:201-232 | A block that is immature and no orphan was credited by an earlier step of the run |
| Credits.LeftOpenForGood | storage/redis.go:499-541 | A log of a matured block that is still open stays open, unchanged, for the rest of the run |
| Credits.OtherHashLeavesCreditForGood | storage/redis.go:499-541 | A payout under another hash than the credit's leaves the credit's log open for the rest of the run |
| Reorganised.OtherHashIsReached | payouts/unlocker.go:94-131 | For any two hashes with one nonce, some run credits a block under the first and is about to pay it out under the second |
| Reorganised.OrphanIsReached | payouts/unlocker.go:112-123 | For any block and any other in its place at first, some run takes the block for an orphan in the first pass and is about to pay it in the second |
| Credits.UnlistedIsNeverPaid | storage/redis.go:252-270 | Over any stretch of a run that does not list it, a frozen block stays frozen with its round unchanged, and is neither credited nor paid |
| Payouts.ImmatureIsOpenAndUnread | storage/redis.go:499-568 | In every state of every run a miner's immature amount is its open log entries plus what was deleted unread, so the two agree if and only if nothing was |
| Payouts.LostIsWhatWasNotRead | storage/redis.go:499-568 | The lost credits of a state are the sum of the logs deleted unread by the steps before |
| Payouts.LogClosesIffSameHash | storage/redis.go:499-541 | After maturing, a log of the block's credit is open if and only if the block was no orphan and the chain's hash is not the one it was credited under |
| Payouts.OrphaningTakesBackTheLog | storage/redis.go:543-568 | Orphaning deletes exactly its own block's log and touches no balance; if the log is read, each miner's provisional credit is taken back |
| Payouts.MaturingPaysTheRevenue | payouts/unlocker.go:335-366 | With a fee address, all that maturing adds to balances is within (n+1)/2 of coinbase value plus fees |
| Payouts.MoneyIsConserved | storage/redis.go:429-541 | In every state of every run, balance, pending and paid of all miners add up to what matured blocks credited, and each pool total is the sum over miners |
| Payouts.MinersMoneyIsConserved | storage/redis.go:429-541 | So for every miner: its balance, pending and paid amounts are what the blocks matured so far paid to it |
| Payouts.DifficultyIsConserved | storage/redis.go:185-271 | All share difficulty ever accepted is in the current round, a frozen round or a matured block's share count, at every moment of every run |
| Contributions.WorkStaysOnesOwn | storage/redis.go:208-279 | At every moment of every run and for every login, the difficulty of the shares and blocks that name it is in its own field of the current round, of the frozen rounds, or of the rounds deleted as their blocks matured |
| Contributions.CurrentIsSinceLastBlock | storage/redis.go:208-271 | What a login has in the current round is what it brought since the last block was found |
| Contributions.RoundIsKept | storage/redis.go:239-248 | Until its block matures, a round is there under the height and nonce of the step that found the block, and holds for every login what was current then, the finder's greater by its difficulty |
| Contributions.RoundIsItsWork | storage/redis.go:239-248 | The round that pays for a block holds for every login exactly what that login brought between the block before and this one |
| Provenance.RowsAreTheFoundBlocks | storage/redis.go:583-608 | Every row a block ever has, in any ZSET at any later moment of a run, has the nonce, time, difficulty, share count, coinbase value and fees that came with the step that found it, is scored with its height, and has the reward these amounts make; the hash of one that is no orphan belongs to its nonce |
| Provenance.CreditIsEarned | payouts/unlocker.go:201-232 | The step of a run that credits a block provisionally raises each miner's immature amount by its part of the found block's amounts, each to the nearest, over the round that was current when it was found with the finder's share in it; just that is logged under the block's height and hash; no balance changes |
| Provenance.PayoutIsEarned | payouts/unlocker.go:294-308 | The step that matures a block that is no orphan raises each balance by its part in the same way and logs it under height and hash, and raises the pool's mined total by the block's revenue |
| Provenance.OrphanEarnsNothing | storage/redis.go:543-568 | The step that matures a block as an orphan changes no balance and no mined total |
| Provenance.TotalMinedIsRevenue | storage/redis.go:535-538 | In every state of every run the mined total is the revenue of the matured blocks that are no orphans |
| Payouts.FreezeAccounts | storage/redis.go:273-279 | Freezing a round conserves difficulty if and only if its key overwrites no round that holds any |
| Books.CreditImmatureKeepsBalance | storage/redis.go:481-497 | A provisional credit under a new key keeps every miner's immature amount equal to its open log entries and the pool totals equal to the sums |
| Books.CreditImmatureIff | storage/redis.go:488-492 | The miners stay in agreement with the logs if and only if no miner with a nonzero credit is in the key's log already |
| Books.RevertImmatureKeepsBalance | storage/redis.go:516-534 | Undoing a log, whatever was read of it, keeps miners, pool and logs in agreement, counting what was not read as lost |
| Books.RevertImmatureIff | storage/redis.go:500-522 | Undoing a log keeps that agreement if and only if the read returned every amount in it |
| Books.CreditMaturedKeepsBalance | storage/redis.go:524-537 | A final credit under a new key keeps what a miner holds equal to its closed log entries |
| Books.DebitKeepsBalance | storage/redis.go:429-444 | Debiting for a payment keeps miners, pool and logs in agreement |
| Books.PayKeepsBalance | storage/redis.go:461-479 | So does recording a payment |
| Books.RollbackKeepsBalance | storage/redis.go:446-459 | So does rolling a debit back |
| Books.RevertUndoesCredit | storage/redis.go:543-568 | Crediting and reverting restores every miner, the pool and the logs |
| Books.RollbackUndoesDebit | storage/redis.go:446-459 | Debiting and rolling back restores every miner and the pool |
| Rewards.CalculateRewardsForShares | payouts/unlocker.go:368-378 | Whatever order the map is visited in, each miner of the round gets its own portion, rounded to nearest with halves away from zero |
| Rewards.CreditsArePaidOut | payouts/unlocker.go:335-384 | In the block's own amounts: each miner's credit is within one half of (1 - poolFee) times the revenue times its part of the shares; the fee address, in lower case, gets within one half of poolFee times the revenue, and the fees if the pool keeps them, on top of its own part; nobody else gets anything. The revenue is the coinbase value, with the fees unless they are kept |
| Rewards.HalvesGoAway | payouts/unlocker.go:368-378 | Halves are rounded away from zero |
| Rewards.SmallLetters | payouts/unlocker.go:360-360 | In a text in lower case only the 26 capital letters have changed, each to its small letter |
| Rewards.RewardsNearProfit | payouts/unlocker.go:368-378 | The rounded rewards of n miners whose shares add up miss the miners' profit by at most n/2 |
| Rewards.ProfitBoundIsReached | payouts/unlocker.go:368-378 | There is a round for which that bound is met exactly |
| Rewards.CreditsNearRevenue | payouts/unlocker.go:133-148 | With a fee address everything credited misses coinbase value plus fees by at most (n+1)/2, whether or not the pool keeps the fees |
| Rewards.MoreSharesEarnNoLess | payouts/unlocker.go:368-378 | A miner with more shares is never paid less than one with fewer |
| Rewards.FeeReachesItsAddressIff | payouts/unlocker.go:359-363 | The pool's part goes to the address in lower case, and to the configured address if and only if that has no capital letter or the part rounds to nothing |
| Rows.CandidateRoundTrip | storage/redis.go:866-888 | A printed candidate row is read back with all eight fields, for all int64 values and colon-free texts |
| Rows.BlockRoundTrip | storage/redis.go:890-918 | A printed block row is read back with all its fields, the reward as its decimal text |
| Rows.CandidateText | storage/redis.go:258-259 | The text of a candidate row is its eight fields in order with colons between |
| Rows.BlockText | storage/redis.go:72-84 | The text of a block row is a zero and its nine fields in order with colons between |
| Rows.WrittenBlockReadsBack | storage/redis.go:72-84 | A block written as immature is read back as that block without extranonces, an empty hash as "0x0", the reward as text |
| Rows.ParsedRowsFit | storage/redis.go:866-918 | Whatever row is read, the result can be printed again |
| Text.SplitJoin | storage/redis.go:281-311 | Joining colon-free texts and splitting the result gives them back |
| Text.ParseFormatInt | storage/redis.go:287-290 | Printed integers parse back, as big integers always and as int64 in range |
| Text.DigitsMakeNumbers | storage/redis.go:877-882 | Decimal text is a number exactly if it is digits only, at least one, each worth ten of the next |
| Text.SignedNumbers | storage/redis.go:877-882 | A sign in front of the digits is read as one |
| Text.NearestInt64 | storage/redis.go:877-882 | Any text is read as the nearest int64 to its number, and as zero if it is none |
| SortedSets.SortedSet.RangeByScore | storage/redis.go:313-329 | The listing holds exactly the printed rows with scores from 0 to the bound, each once |
| SortedSets.SortedSet.Add | storage/redis.go:589-589 | Adding a printed row changes that row's score and no other |
| RedisClient.RedisClient.CheckPoWExist | storage/redis.go:179-183 | A key is reported as present exactly if it is left after pruning, and is then stored at the new height; an error of pruning is dropped, one of the addition is returned, and the key may be stored or not |
| RedisClient.RedisClient.WriteShare | storage/redis.go:185-206 | A new share raises its login's field of the current round by its difficulty and no other, and the round's total; a duplicate, or a share that could not be checked, changes neither; the key set is the check's, however the transaction ends |
| RedisClient.RedisClient.WriteBlock | storage/redis.go:224-263 | The three steps of a found block: refused, it leaves only its key; otherwise the current round is under its height and nonce with the finder's field greater by the difficulty, and a new one begins; cut short after the transaction, there is no row; whole, a row whose shares are the frozen round's sum |
| RedisClient.RedisClient.WriteImmatureBlock | storage/redis.go:481-497 | The loop over rewards credits each miner, logs each amount once and adds up the pool's total in one transaction |
| Ledger.RenameMoves | storage/redis.go:583-587 | A round that is renamed is under the new key and not the old; where there is none nothing changes |
| RedisClient.RedisClient.WriteMaturedBlock | storage/redis.go:499-541 | The two loops take back what was read of the log and credit the rewards, the log is deleted and the row moves, in one transaction |
| RedisClient.RedisClient.WriteOrphan | storage/redis.go:543-568 | The row moves, the log is deleted and what was read of it taken back, and nothing else changes |
| RedisClient.RedisClient.WritePendingOrphans | storage/redis.go:570-581 | All orphans move in one transaction, as if one by one in order |
| RedisClient.RedisClient.UpdateBalance | storage/redis.go:429-444 | The four increments move the amount from balance to pending, of that miner only and of the pool, and the payment is listed as pending, under its login and amount, with its time |
| RedisClient.RedisClient.RollbackBalance | storage/redis.go:446-459 | The four increments move it back, and the payment is no longer listed |
| RedisClient.RedisClient.WritePayment | storage/redis.go:461-479 | The four increments move it from pending to paid, of that miner only; the payment goes from the pending ones to all and to its miner's, each entry with its hash in front, and the lock is released |
| RedisClient.RedisClient.LockPayouts | storage/redis.go:381-388 | The lock is taken exactly by who finds it free and is told so; otherwise it stays as it is |
| RedisClient.RedisClient.GetPendingPayments | storage/redis.go:413-427 | Every pending payment once, with login, amount and time as its row reads |
| Payments.DebitAgreesIff | storage/redis.go:429-444 | A debit keeps every miner's pending amount equal to its listed payments if and only if the same payment is not listed already, or is of nothing |
| Payments.RollbackAgreesIff | storage/redis.go:446-459 | A rollback keeps them equal if and only if the payment was listed, or is of nothing |
| Payments.PayAgreesIff | storage/redis.go:461-479 | Recording a payment keeps them equal under the same condition |
| Payments.HistoriesAgree | storage/redis.go:429-479 | In any history in which payments are debited while not listed and settled while listed, amounts and list agree, and every row of the list is a payment |
| Payments.AllHoldsPayments | storage/redis.go:461-479 | Over any history of debits, rollbacks and payments, an entry is on the list of all payments if and only if some payment with that hash, login and amount made it, and the lock is free |
| Payments.OwnListHoldsPayments | storage/redis.go:461-479 | And on a miner's list if and only if some payment to that miner with that hash and amount did |
| Payments.ResolvingRestores | storage/redis.go:413-459 | Where they agree, rolling back all that is listed, in any order, leaves nothing pending and gives every miner back what was |
| Payments.TwinPaymentIsLost | storage/redis.go:440-440 | Two equal payments debited at once are listed once, and rolling back the list leaves one of them pending |
| RedisClient.RedisClient.GetCandidates | storage/redis.go:313-320 | The candidates up to a height, each once; each record has the fields of its own row, each in its place, and the score as its height |
| RedisClient.RedisClient.GetImmatureBlocks | storage/redis.go:322-329 | The immature blocks up to a height, each once; each record has the fields of its own row, each in its place, the reward as text, and the score as its height |
| RedisClient.RedisClient.GetRoundShares | storage/redis.go:331-343 | The shares of a frozen round, empty if there is none |
| Passes.PendingPassIsRun | payouts/unlocker.go:150-240 | Whatever the node and the backend answer, the first pass takes the pool from a safe state to a safe state by steps of its runs |
| Passes.MaturePassIsRun | payouts/unlocker.go:242-333 | So does the second pass |
| Passes.UnansweredPendingPass | payouts/unlocker.go:156-183 | A first pass whose node calls fail anywhere writes nothing and halts |
| Passes.UnansweredMaturePass | payouts/unlocker.go:248-276 | A second pass whose node calls fail anywhere writes nothing and halts |
| Passes.PendingPassClearsDue | payouts/unlocker.go:165-215 | A first pass that ends without error leaves no candidate that was due |
| Passes.MaturePassClearsDue | payouts/unlocker.go:257-308 | A second pass that ends without error leaves no immature block that was due |
| Passes.GoodPendingPass | payouts/unlocker.go:150-240 | A first pass in which nothing fails moves every due candidate on, and does not halt |
| Passes.GoodMaturePass | payouts/unlocker.go:242-333 | A second pass in which nothing fails matures every due block that the first moved on: no listed block gets stuck |
| Passes.UndueCandidateStays | payouts/unlocker.go:163-215 | Whatever the first pass meets, a block that is no candidate, or not deep enough, stays exactly where it is |
| Passes.UndueImmatureStays | payouts/unlocker.go:255-308 | Whatever the second pass meets, a block that is not immature, or not deep enough, stays exactly where it is |
| BlockUnlocker.BlockUnlocker.Decide | payouts/unlocker.go:94-131 | The loop gives up at the first missing answer, and otherwise sorts the blocks by their nonces on the chain |
| BlockUnlocker.BlockUnlocker.RewardsFor | payouts/unlocker.go:335-366 | The credits of a block depend only on the block, its round and the fee settings; for a block with the reward its amounts make they are its miners' and the pool's parts of those amounts, as `Rewards.CreditsArePaidOut` says them, over the round under its height and nonce |
| BlockUnlocker.BlockUnlocker.CreditAll | payouts/unlocker.go:201-232 | The crediting loop credits block after block up to the first error |
| BlockUnlocker.BlockUnlocker.UnlockPendingBlocks | payouts/unlocker.go:150-240 | Ledger, history and halt flag end as the first pass says, for all that was listed up to one less than the node's next height, in 32 bits, less the immature depth |
| BlockUnlocker.BlockUnlocker.UnlockAndCreditMiners | payouts/unlocker.go:242-333 | The same for the second pass and the full depth |
| BlockUnlocker.BlockUnlocker.Tick | payouts/unlocker.go:63-84 | The pool ends as the second pass makes it of what the first left; both keep it safe, along a run; a halted unlocker changes nothing |
| PowHistory.PrunedSetIsHistory | storage/redis.go:179-183 | For any interleaving of the two commands of any clients, a key is in the set exactly if its latest addition has not been pruned since |
| PowHistory.DuplicateIff | storage/redis.go:179-183 | A submission is a duplicate if and only if its key was submitted before and no later submission, itself included, was more than 3 above that latest height |
| PowHistory.CountedOncePerWindow | storage/redis.go:185-206 | Of two submissions of a key inside the window, in any interleaving, only the first counts |
| PowHistory.LowHeightForgetsAll | storage/redis.go:180-180 | At a height below 3 the wrapped cutoff prunes everything |
| PowHistory.CutoffWraps | storage/redis.go:180-180 | The cutoff is three below the height, counted with 64 bits |
| ScriptNumbers.PackNumber | bitcoin/btc_coinbase.go:136-148 | The loop yields a length byte and the digits of every number from 0; of a negative number one byte |
| ScriptNumbers.PackedIsScriptNumber | bitcoin/btc_coinbase.go:136-148 | For every positive number the digits are its minimal script number (BIP 34, section "Specification") |
| ScriptNumbers.PackedDecodes | bitcoin/btc_coinbase.go:136-148 | The digits decode to the number, need no sign bit and waste no byte |
| ScriptNumbers.OnlyMinimalEncoding | bitcoin/btc_coinbase.go:136-148 | No other bytes are a minimal unsigned encoding of a number |
| Coinbase.HalvesMakeOneTransaction | bitcoin/btc_coinbase.go:189-294 | For all pairs of extranonces the halves around them parse, with nothing left over, as the intended transaction: version 2, one null input with the joined script, reward and optional commitment outputs, lock time 0 |
| Coinbase.FirstHalfBytes | bitcoin/btc_coinbase.go:189-235 | The first half byte by byte: version, one input of 32 zero bytes and the greatest index, the length of the whole script, its first part |
| Coinbase.SecondHalfBytes | bitcoin/btc_coinbase.go:236-294 | The second half byte by byte: the rest of the script, the sequence, the number of outputs, each with value and script, the lock time |
| Coinbase.ExtranoncesAreInjective | bitcoin/btc_coinbase.go:363-363 | Different extranonces give different bytes |
| Coinbase.ScriptPushes | bitcoin/btc_coinbase.go:308-318 | Without flags the script pushes exactly height, time, extranonces and extra data if and only if the extra data is at most 75 bytes, and then is 2 to 100 bytes long |
| Coinbase.CoinBaseTransaction.GenerateCoinB | bitcoin/btc_coinbase.go:189-294 | The two buffers hold the two halves of the object's own fields |
| Coinbase.CoinBaseTransaction.Initialize | bitcoin/btc_coinbase.go:296-342 | Succeeds exactly on well-formed flags, wallet and commitment; no failure touches the halves |
| Coinbase.CoinBaseTransaction.RecoverToRawTransaction | bitcoin/btc_coinbase.go:344-374 | Succeeds exactly on two four-byte extranonces, and gives the transaction they complete |
| Difficulty.DifficultyRoundTrip | util/util.go:60-69 | Target text and back is the identity on every positive int64 difficulty |
| Difficulty.PlainHexReads | util/util.go:66-69 | Hexadecimal text without a prefix reads as the number all its digits spell, of odd and even length |
| Difficulty.PrefixedHexReads | util/util.go:66-69 | Text with a prefix reads as the number the digits after it spell |
| Difficulty.MalformedHexReads | util/util.go:66-69 | Any other text reads as the number its digits spell up to the first pair with a bad one |
| Difficulty.TargetTextRead | util/util.go:66-69 | The difficulty of a target text is how often the number its digits spell goes into 2^256 |
| Difficulty.WithinTargetIff | proxy/miner.go:240-246 | A number is at most the threshold of a difficulty if and only if it is positive and its product with the difficulty plus one is at most 2^256 |
| Difficulty.AcceptsIff | proxy/miner.go:240-246 | A nonzero hash passes at difficulty d if and only if it is at most floor(2^256/(d+1)) |
| Difficulty.BlockTestAgainstTarget | proxy/miner.go:66-78 | Hashes taken as blocks are strictly below the network target; the valid ones missed are exactly those above the threshold, m of them with (m-1)D(D+1) < 2^256 |
| Difficulty.ShareTestDropsNoBlock | proxy/miner.go:66-78 | The share test drops no block exactly if the thresholds are in that order, as they are when the share difficulty is not above the block's |
| Merkle.FoldOfBranchIsRoot | proxy/blocks.go:116-116 | Folding any coinbase id into the branch of the other ids gives the root over all of them in order, for any hash |
| Merkle.PairsAbove | proxy/blocks.go:116-116 | Each hash of the next level combines the two below it, an odd last one with itself |
| Merkle.SmallRoots | proxy/blocks.go:116-116 | The roots of three, four and five leaves, written out |
| BlockAssembly.DoubleSha256HashVerify | proxy/miner.go:131-247 | Accepts exactly if the share makes a header and the number that the digits of its hash spell, times the difficulty plus one, is at most 2^256 |
| BlockAssembly.Uint32Read | proxy/miner.go:201-212 | Up to eight hexadecimal digits are read as the number they spell, longer text only if that has 32 bits |
| BlockAssembly.ConstructRawBlock | proxy/blocks.go:172-273 | Builds a block exactly if the share makes a header and every transaction unpacks; its header is the one that is checked, its transactions are the coinbase and the job's in order; it comes out empty without error only if a transaction has no data |
| BlockAssembly.HeaderCommitsToBlock | proxy/blocks.go:212-231 | If branches are built and folded in the standard way, the header's root is that of coinbase and job transactions in order |
| Templates.TemplateMaps.AddJob | proxy/blocks.go:147-151 | A new job is under its id; every id of the answer has the data of its last transaction with that id, and all other ids keep theirs; all jobs stay sound under every template that shares the maps, and all data is what some answer for the block gave |
| Templates.DetailsAreData | proxy/blocks.go:149-151 | Storing the data of transactions one after the other leaves every id with the data of the last that has it, and the other ids as they were |
| Templates.TxIdsInOrder | proxy/blocks.go:113-115 | A job lists every transaction's id, in order |
| Templates.FeesAdd | proxy/blocks.go:139-142 | The fees of two lists of transactions add up, and one transaction's are its own |
| Templates.BitsRead | proxy/blocks.go:83-91 | The bits are the number the text spells: without a sign below 2^31, with a minus wrapped around 32 bits |
| Templates.TemplateServer.MakeJob | proxy/blocks.go:111-145 | A job is made exactly if nothing on the way fails; it lists the answer's transactions and fees, and its halves are a coinbase for the height that pays the answer's value |
| Templates.TemplateServer.MakeTemplate | proxy/blocks.go:81-109 | A template for a new block takes version, bits, target and height from the answer and gets new maps; one for the same block keeps the old template's fields and shares its maps; the difficulty is how often the number that the target's digits spell goes into 2^256, and malformed target text counts up to its first bad digit |
| Templates.TemplateServer.FinishFetch | proxy/blocks.go:75-154 | From any template ever stored as base, all stored templates stay sound: last job present, jobs for the template's height, data for all transactions, each from an answer for the block; the new one's jobs are those it started from with the new job, made for this answer and second, under its id |
| Templates.TemplateServer.AnnouncedIdsKeepJobsIff | proxy/blocks.go:143-148 | Every id the new template started from keeps its job if and only if the new id is not among them or names an equal job |
| Templates.SameSecondSameId | proxy/blocks.go:129-143 | Jobs made from the same height, flags and second have one id, whatever their transactions and value |
| Templates.TemplateServer.FinishOvertaken | proxy/blocks.go:75-154 | A fetch that finishes on any base ever stored without announcing a block keeps all jobs of the template in use if and only if the base's maps hold all of them but the new one; it does if the maps are the same, and keeps none for another height where ids do not collide; with one set of maps per height, the height decides |
| Templates.TemplateServer.FetchBlockTemplate | proxy/blocks.go:60-160 | Without overlap, a template is stored exactly if the one in use is for another block or too old and the answers can be used; it has the data of the answer's transactions; and a job id disappears from one stored template to the next only if the new one announces a new block |
| Templates.OverlappingFetches | proxy/blocks.go:68-153 | With overlap, a late answer about the old block drops every job of the new one without announcing a block, whenever the two heights differ and the ids of those jobs do not collide |
| Templates.AnnouncedTwice | proxy/blocks.go:68-153 | Two overlapping fetches announce one block, and a third, based on the first, announces nothing and keeps the jobs of the first and not that of the template in use, unless ids coincide |
| Templates.JobsComplete | proxy/blocks.go:129-137 | Whatever extranonces a miner uses on a job, the coinbase is one transaction whose script starts with the height and which pays the job's value to the pool |
| Templates.JobsCompleteExactly | bitcoin/btc_coinbase.go:189-342 | That transaction in full: one input that spends nothing, with the script of height, flags, second, extranonces and extra data; outputs that pay the value to the wallet and carry the commitment |
| Templates.FirstHalfTellsHeight | proxy/blocks.go:129-143 | Jobs with one first half, which is all an id is made of, are for one height |
| Templates.HeightsShareNoJobs | proxy/blocks.go:143-148 | Sound jobs for two heights have no id in common, unless ids of two different first halves among them collide |
| Stratum.StratumServer.constructor | proxy/stratum.go:36-41 | The pool starts with every tag once |
| Stratum.StratumServer.AcceptConnection | proxy/stratum.go:54-70 | An admitted connection takes the next free tag; free and held tags always partition 0..MaxConn-1 |
| Stratum.StratumServer.HandleNext | proxy/stratum.go:62-113 | Each way a handler can go on or end: the tag goes back without blocking, and the session is forgotten after every ending but a flood |
| Stratum.StratumServer.DropSession | proxy/stratum.go:300-306 | A job that cannot be sent removes the session; its handler keeps its tag |
| Stratum.FreeAndHeld | proxy/stratum.go:36-69 | Free and held tags together are MaxConn |
| Stratum.StratumServer.SubscribersAreDisjoint | proxy/handlers.go:30-30 | With at most 65536 connections two subscribed sessions with running handlers never share coinbase bytes for one job |
| Stratum.StratumServer.NodesAreDisjoint | proxy/handlers.go:30-30 | Nor do sessions on nodes with different ids |
| Stratum.TagsFitExactly | proxy/stratum.go:60-60 | All tags get different extranonces if and only if there are at most 65536 |
| Stratum.ExtranonceIsNumber | proxy/handlers.go:30-30 | The first extranonce spells the node's id times 65536 plus the low 16 bits of the tag |
| Stratum.StratumServer.RegisteredAreDisjoint | proxy/handlers.go:30-30 | With at most 65536 connections all registered sessions have different extranonces, as long as none is left behind by a flood |
| Stratum.StratumServer.LeftTagIsAround | proxy/stratum.go:54-70 | The tag of a session left behind is free again or held by a running handler |
| Stratum.FloodedSessionGetsTwin | proxy/stratum.go:54-83 | From any state, a registered session left behind gets a registered twin with its extranonce: connections are let in until its tag comes round, and the holder subscribes |
| Stratum.DisjointSearchSpaces | bitcoin/btc_coinbase.go:363-363 | Different first extranonces give different coinbases whatever the second ones |
| PolicySpec.SharesAreJudgedInBatches | policy/policy.go:222-257 | A share is refused if and only if it completes a batch of CheckThreshold shares with 100 * invalid >= InvalidPercent * valid, or short of it by no more than 32-bit rounding hides |
| PolicySpec.BannedIff | policy/policy.go:182-272 | A record is banned if and only if banning is on and some call of its life offended while the peer was not whitelisted; malformed requests are counted with 32 bits |
| PolicySpec.FewMalformedCount | policy/policy.go:212-220 | Below 2^31 calls that count is exact |
| PolicySpec.Int32Wraps | policy/policy.go:212-216 | Counting with 32 bits stays in range and keeps the number modulo 2^32 |
| PolicySpec.BannedAtLatest | policy/policy.go:259-272 | While a record lives, the time of its ban is that of the latest call that banned it |
| PolicySpec.BansLastIff | policy/policy.go:117-142 | No cleanup ends a ban before its time, in any history, if and only if idle records are kept at least as long as bans |
| PolicySpec.AnswersIff | policy/policy.go:182-220 | In any history malformed requests are refused exactly from the limit on, blacklisted logins and floods always, a ban check exactly after an offence off the whitelist with banning on; a connection in the grace period or without limits is let in |
| PolicySpec.LastSeenAtLatest | policy/policy.go:168-201 | A peer was last seen at its latest call that fetched its record; a call that fetches none leaves no trace |
| PolicySpec.AdmittedIff | policy/policy.go:192-201 | A post-grace connection is let in if and only if limit plus jump times valid shares less the attempts, counted with 32 bits that wrap around, is positive |
| PolicySpec.AdmittedWhileBelow | policy/policy.go:192-201 | Where the counter cannot overflow, that is the exact comparison |
| PolicySpec.AdmittedAtMost | policy/policy.go:274-284 | At any moment at most limit - 1 plus jump times valid shares so far have been let in, where the counter cannot overflow |
| PolicySpec.OverflowAdmits | policy/policy.go:274-284 | With the lowest limit the first connection is let in, above that bound |
| Policy.RecordsAreHistories | policy/policy.go:117-180 | With calls and cleanups in any order, a peer's record is what its own calls since the last cleanup that forgot it make of a new one, whatever other peers do |
| Policy.LivesAreLives | policy/policy.go:117-180 | The cleanups within a life are those the record survived, so what is proved of lives is proved of peers |
| Policy.CleanupKeepsLimitIff | policy/policy.go:117-142 | A cleanup leaves a peer's remaining connections as they are if and only if its record survives or has the full limit |
| Policy.CleanupForgetsIff | policy/policy.go:117-142 | A cleanup forgets exactly the peers not seen for too long and those whose ban is over, and changes nothing of the others but the time of a ban that was never one |
| Policy.PolicyServer.Get | policy/policy.go:168-180 | Finds the peer's one record or makes it, and changes no other |
| Policy.PolicyServer.ApplySharePolicy | policy/policy.go:222-252 | Counters, batch reset, rounded quotient, ban and answer are the specification's, for this peer only |
| Policy.PolicyServer.ApplyLimitPolicy | policy/policy.go:192-201 | Countdown and answer are the specification's; in the grace period no record is touched |
| Policy.PolicyServer.ApplyLoginPolicy | policy/policy.go:203-210 | A blacklisted login bans the peer, any other leaves no trace |
| Policy.PolicyServer.ApplyMalformedPolicy | policy/policy.go:212-220 | The count and the ban are the specification's |
| Policy.PolicyServer.BanClient | policy/policy.go:182-185 | A ban marks this peer, unless banning is off or it is whitelisted |
| Policy.PolicyServer.IsBanned | policy/policy.go:187-190 | Answers for this peer and notes that it was seen |
| Policy.PolicyServer.ForceBan | policy/policy.go:259-272 | Sets the flag and its time, unless banning is off or the peer is whitelisted |
| Policy.PolicyServer.ResetAll | policy/policy.go:117-142 | The loop with deletions leaves exactly the survivors, in any order of visits |
| ShareProcessing.JudgeShare | proxy/miner.go:17-83 | Stale, rejected, share, block or unbuildable, as job, header hash and transaction data say; block construction never meets a missing transaction |
| ShareProcessing.SubmittedBlocksAreGood | proxy/miner.go:78-84 | A submitted block's header has a hash below the network target, read from its digits, is on the template's block with its bits and the miner's time and nonce, and commits to exactly the block's transactions |
| ShareProcessing.StoredBlocksAreGood | proxy/miner.go:78-84 | And if it is built on a stored template, only the answers and the libraries are taken for granted: behind the coinbase are the job's transactions, and the coinbase is for the template's height, has the miner's extranonces in its script and pays the job's value to the pool |
| ShareProcessing.StoredDataIsRight | proxy/blocks.go:149-151 | The data of a stored template belongs to its ids if the answers it came with were right |
| ShareProcessing.VerdictsMean | proxy/miner.go:17-83 | A share is stale exactly if its job is not the template's, rejected exactly if its header's hash does not meet the share difficulty, and makes a block, or one that cannot be built, exactly if the same header also meets the template's |
| ShareProcessing.NoBlockIsRejected | proxy/miner.go:66-78 | With a share difficulty up to the template's, no share that makes a block is rejected |
| ShareProcessing.SoundTemplatesAreComplete | proxy/blocks.go:250-264 | In a stored template every job has the data of all its transactions |
| ShareProcessing.Conclude | proxy/miner.go:84-129 | Exactly the accepted, recorded, new shares and blocks reach the ledger, once; the two answers say whether it was a duplicate and whether it was valid; exactly the recorded ones leave their key |
| ShareProcessing.ValidIsCreditedIff | proxy/miner.go:84-129 | A share answered as valid adds its difficulty to what the ledger accounts for if and only if it is no refused block, its check went through and its transaction was not refused; otherwise it adds nothing |
| ShareProcessing.SubmissionCreditsLogin | storage/redis.go:224-279 | A credited share raises the submitter's own field of the current round by its difficulty and no other; a credited block closes the round under the template's height and its nonce with the submitter's field so raised; any other submission changes no round |
| ShareProcessing.SubmissionListsBlock | storage/redis.go:250-262 | A block recorded in full leaves one row, scored with the height, with the nonce and extranonces submitted, the job's amounts, the template's difficulty and the frozen round's sum; nothing else leaves a row, and no submission touches money |
| ShareProcessing.SameKeyIff | proxy/miner.go:77-77 | Two shares have one key if and only if nonce and both extranonces are the same |
| ShareProcessing.ResubmissionIsDuplicateIff | storage/redis.go:179-206 | Once a share's key is stored, credited or not, submitting it again is a duplicate if and only if no pruning past its height comes with it |
| ShareProcessing.CreditedOncePerWindow | storage/redis.go:179-263 | In any history of submissions a key is credited twice only if a submission after its latest storing pruned past its height |
| ShareProcessing.HandleSubmit | proxy/handlers.go:78-117 | Malformed parameters touch only the peer's record; any other submission is judged, recorded and credited to the miner's login at the configured difficulty, its key kept if it is recorded, counted by the policy and answered accordingly |
| ShareProcessing.NoncesAreDigits | proxy/handlers.go:16-16 | A nonce, time or second extranonce is accepted exactly if it is eight digits 0-9 and a-f |
| ShareProcessing.ReplyTo | proxy/handlers.go:92-116 | Each combination of duplicate, valid and over the limit has its reply, and the policy hears of a share as valid exactly if it counts |
| ShareProcessing.SubmissionIsRun | proxy/miner.go:88-127 | Whatever a submission writes is written by steps of the pool's runs, if its block brings a new nonce |

## Left out

- Lifecycle.Enabled: a found block has a nonce no earlier one had; without that, rounds and rows of two blocks share keys, and only `Payouts.FreezeAccounts` is claimed.
- Two unlockers on one database: the WATCH covers the credit log, not the lists they both read.
- RedisClient.RedisClient.GetCandidates: the listing comes in an arbitrary order, not in that of ZRANGEBYSCORE; nothing depends on it.
- RedisClient.RedisClient.GetPendingPayments: likewise in an arbitrary order, not latest first.
- RedisClient.RedisClient.WriteShare: hash rate sets and last-share times are not kept; they move no money.
- RedisClient.RedisClient.WriteBlock: hash rate sets, last-share times, finders, block counters and the time of the last block are not kept; they move no money.
- RedisClient.RedisClient.WriteMaturedBlock: the list `credits:all` and the fields `lastCreditHeight` and `lastCreditHash` are not kept; no decision of the pool depends on them.
- The payer itself, whose driver is commented out; what it would call is modelled.
- Hash rate windows (`convertMinersStats`, `convertWorkersStats`) and luck statistics: sums over time windows that nothing in the ledger reads.
- Fields of a block record as an object: `BlockData` is a value here, since every record is made, changed and dropped within one pass.
- int64 overflow of amounts and share totals: all sums are exact.
- PolicySpec.AdmittedAtMost: only while the 32-bit counter cannot overflow; `PolicySpec.OverflowAdmits` shows that the bound fails otherwise, and `PolicySpec.AdmittedIff` says exactly who is let in then.
- Policy.PolicyServer.ForceBan: the channel to the workers that run `ipset` is not modelled; each call reads the clock once, and calls about a peer do not overlap.
- Templates.TemplateMaps.AddJob: readers of the shared maps while they are being written; Go allows no such reads, and the model has none.
- Stratum.StratumServer.AcceptConnection: where the source waits for a free tag, the step cannot happen yet.
- Stratum.StratumServer.HandleNext: the end of a handler is one step here, while the tag goes back a moment after the session is forgotten; message texts and deadlines are left out.
- ShareProcessing.HandleSubmit: the template is the one current at the start, as in the code; the template fetch after a found block is a separate step.
- Session ids and the targets sessions are told, authorisation of workers, changes of a session's difficulty, the HTTP mining route, the web interface, upstream selection, configuration files and logs.
- Order of goroutines in a broadcast: what is claimed about announced blocks is about stored templates.
- Addresses and their checksums, `btc_difficulty.go` and the display of difficulties in floating point.
