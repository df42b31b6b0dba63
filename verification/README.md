# Verified model of the economy ledger

A Dafny model of the parts of this repository that keep money right: the double-entry ledger and its
independent prover, the hash chains and Merkle checkpoints over it, session netting with its settlement
and crash recovery, credit maturity, the in-world purchase lane, and the small exact algorithms they
rest on. `dafny verify dfyconfig.toml` checks all of it.

## How it is laid out

Code that computes by expressions is modelled by functions. Code that changes state is modelled twice:
as functions on values, about which the theorems are proved, and as classes and loops in the code's own
shape, each proved equal to its function or to a property stated outright.

- `Text`, `Money`, `Rounding`, `Accounts`, `AccountIds`, `TxnIds`: code-unit order and sorting, amounts
  and their wire text, rounding modes, account and transaction ids.
- `Ledger`, `LedgerStore`, `Integrity`: posting rules, the in-memory commit, the prover.
- `Chain`, `Preimage`, `Merkle`, `LeafBytes`, `Seal`, `SealRuns`, `Archive`: chains, what is hashed,
  roots, checkpoints over whole runs, the archival merge.
- `Settlement`, `SettlementProof`, `SettlementNet`, `SettleReport`, `Recovery`, `Screening`: settling a journal in a world
  where others post in between and the process may die between any two transactions. `HalfUndone`,
  `SecondSettle`, `FullColumn`, `LostBatch` and `LateSale` are concrete runs.
- `SessionHost`, `NettingSession`, `SessionText`, `ConcurrentScreen`, `SharedLanes`, `Prefund`: the session
  object, the text it hashes, many sessions and lanes on one registry, the escrow refund.
- `Maturity`, `Pricing`, `Lane`: lots and what is spendable, the fee split, the purchase lane.
- `Allocate`, `Fold`, `Batching`, `Reconcile`: largest-remainder split, the checked i64 fold, the submit
  coalescer, the reconciler.

A digest is a datatype constructor, so it is injective and never yields genesis; `Preimage` and
`LeafBytes` show that the hashed bytes determine what such a constructor holds. A signer verifies
exactly what it signed. The clock, digest, signer and other clients are parameters.

## What the proofs found

- A settle that stops between two compensations, in a crash or because one of them is refused, is not
  recovered. Recovery sees one compensation, forces replay and never finishes the undoing
  (`src/netting.ts:416-419`, `763-771`). `Recovery.RecoveryIsExactUnlessStranded` has the exact condition
  for any number of lives, `Recovery.OnlyHalfUndoneStrands` shows that no other stop of a first or
  recovered settle brings it about, and `HalfUndone` gives a run.
- A second settle of a live session after a replayed one tries the chunks again. If they go in it reports
  nothing rejected, whatever the first one replayed: `Recovery.SecondSettleIsExactWhen` says exactly when
  that is right, and `SecondSettle` gives a run where it is not. The lane's kept report
  (`src/instance.ts:335-340`) avoids it.
- A flush that the journal refuses, on a key another session has used, has already emptied the batch
  (`src/netting.ts:383-385`), while the session still answers that its movements were accepted. If
  anything is journaled after it, the journal no longer re-derives and no settle runs. If nothing is,
  settle returns, and the lost movements are neither posted nor rejected: `NettingSession.SurvivorsChain`,
  `NettingSession.LostMovementsAreNowhere`, and a run of both in `LostBatch`.
- The incremental seal does not read past the head of an account that has not moved (`src/chain.ts:566`).
  Where heads are the tips of the stored links, one kind of row escapes it: a later link that repeats the
  sealed head's hash. `Seal.IncrementalIsFullProof` has the condition, `Seal.StrayRowEscapes` the row.
- The concurrent screens are sound for exactly the movements that debit before they credit, which the
  session does not check: `ConcurrentScreen.DebitsFirstIsExact`. Lane movements always do.
- The accept screen works on unbounded integers, so a movement it let through can still be rejected for
  the width of a column. `Screening.ScreenedJournalIsRejectedWhen` decides it on the balances before the
  call; `FullColumn` has a run.
- A lane keeps its first report, and a settle over an empty journal leaves the session open
  (`src/netting.ts:406-414`, `src/instance.ts:340`). A purchase after it is accepted, and no later settle
  posts, rejects or releases it: `Lane.InstanceEconomy.RunSettle` has the condition, `LateSale` the run. On
  a lane whose session is closed, a purchase still parks its hold before it is refused
  (`src/instance.ts:257-258`), and only another settle gives it back.
- An order whose batch the journal refused throws. Tried again it is bought, because the session remembers
  it as accepted, although nothing was journaled: `LateSaleRun.LoseThenBuy`, on the condition that
  `Lane.InstanceEconomy.RunPurchase` states.
- A session hashes its movements as one joined text. With a bar in a user id two movements share it:
  `SessionText.BarInIdIsAmbiguous`; without bars and semicolons in ids none do, whatever the keys.
- Refund ids join session and user id with an underscore, so that two refunds can share an id, and then
  only one of them is ever made (`src/netting.ts:275`): `Prefund.RefundIdsMeetWhen` has the condition.
- Below 256 legs the column fold does no overflow check although its comment says every intermediate is
  checked (`src/fold-column.ts:84-98`); `Fold.FoldColumn` follows the code and
  `Fold.SmallColumnOverflows` shows it.
- The comment on the guard lists wallets, payout reserve and settlement accrual (`src/ledger.ts:337-339`);
  netting clearing is guarded too, having no traits row, which is why a multi-chunk settle can be refused.

## Model

| member | source | states |
|---|---|---|
| Accounts.WalletTraits | src/accounts.ts:245-247 | every wallet is CREDIT, credit-normal and inside the overdraft guard |
| Accounts.ClearingTraits | src/accounts.ts:266-358 | clearing has no traits row, so it is guarded and a chunk can be refused over it |
| Accounts.PlatformTraits | src/accounts.ts:266-358 | which platform accounts are in dollars, which grow by debits, and which the guard covers |
| AccountIds.IdDeterminesAccount | src/accounts.ts:43-96 | two accounts the ledger accepts never share an id text, shards and escrows included |
| Money.ParseUndoesFormat | src/money.vendored.ts:226-255 | parsing the ungrouped text of any i64 value at any exponent gives the value back |
| Money.DecodeUndoesEncode | src/money.ts:174-247 | the wire codec is a round trip for both currencies and every i64 amount |
| Money.EncodeInjective | src/money.ts:174-183 | different amounts never have the same wire text |
| Money.EncodedHasNoNul | src/ledger.ts:206-210 | an encoded amount contains no NUL, the separator the chain joins amounts with |
| Money.EncodedSays | src/money.ts:174-183 | the text is currency, sign, the digits of the whole units, a point and two digits of hundredths |
| Money.DigitsSay | src/money.vendored.ts:226-240 | digit strings are decimal, most significant digit first |
| Money.ParseAccepts | src/money.vendored.ts:242-255 | every text of the grammar is read as the number it spells, or refused for the i64 range alone |
| Money.ParseReadsOnly | src/money.ts:191-206 | no other text is read, comma grouping refused beforehand included |
| Text.LessMeans | src/bytes.ts:84-101 | a text precedes another exactly if it is a proper prefix or smaller at the first difference |
| Rounding.DivRoundIsExact | src/money.vendored.ts:137-166 | a result is storable and satisfies the inequality its mode names; a throw means no divisor, or that the one right answer is outside i64 |
| Rounding.RoundingIsUnique | src/money.vendored.ts:137-156 | each mode leaves exactly one answer, ties included |
| Allocate.Split | src/money.vendored.ts:263-283 | which inputs are refused; otherwise no unit lost, each share the floor or floor plus one of its quota, zero for zero, heavier never less, extra units to the largest fractions; negatives by symmetry |
| Allocate.AllocateWhole | src/money.vendored.ts:272-282 | the in-place leftover pass ends in a fair split after one pass |
| Allocate.LeftoverFits | src/money.vendored.ts:273-281 | the leftover never exceeds the number of shares with a nonzero fraction, so one pass over the order suffices |
| Allocate.LeftoverIsFractions | src/money.vendored.ts:272-276 | the fractional parts add up to exactly the units the floors left over |
| Allocate.HeavierShare | src/money.vendored.ts:272-276 | a larger weight has a larger whole part or an equal one with at least the fraction |
| Ledger.PostEntryEffect | src/ledger.ts:109-123 | an accepted posting moves every account by exactly its legs and adds one entry; dropping zero legs moves nothing |
| Ledger.PostEntryAcceptsWhen | src/ledger.ts:109-123 | exactly which postings go in: well-shaped legs, no guarded account overdrawn, every running balance storable |
| Ledger.RefusalSays | src/ledger.ts:240-335 | what each fault says of the posting, check by check |
| Ledger.CommitEffect | src/adapters/memory.ts:248-290 | the commit's effect on every balance and every chain head at once |
| Ledger.CommitKeepsValid | src/ledger.ts:109-123 | a checked commit keeps balances, heads, links, guard and i64 storability all derivable from the log |
| Ledger.PostEntryKeepsValid | src/ledger.ts:109-123 | no accepted posting can leave an invalid ledger |
| Ledger.FusedPathRefinesSequence | src/ledger.ts:131-172 | the fused batch path takes exactly the batches that go in one after another, and leaves the same state |
| Ledger.FusedFault | src/ledger.ts:131-159 | a refused fused batch names the fault of its first posting to fail a check on the ledger as it was, or an overflow when none does |
| Ledger.SequenceKeepsValid | src/ledger.ts:162-172 | a batch posted in sequence keeps the ledger valid |
| LedgerStore.IsBalanced | src/ledger.ts:254-277 | the per-currency sum loop answers true exactly for postings that net to zero in each currency |
| LedgerStore.FoldGuarded | src/ledger.ts:311-318 | one net delta per guarded account, in first-touch order |
| LedgerStore.ShareNoAccount | src/ledger.ts:139-149 | the seen-set loop finds exactly the batches whose postings share no account |
| LedgerStore.NextBalances | src/adapters/memory.ts:248-290 | every running balance is range-checked before any state changes; the result is the committed balances |
| LedgerStore.LedgerStore.OverdraftCheck | src/ledger.ts:303-335 | the first net debit that would go negative, as an overdraft or an overflow, and nothing else |
| LedgerStore.LedgerStore.AdvanceHeads | src/chain.ts:103-123 | one link per distinct account on that account's own head, in first-appearance order |
| LedgerStore.LedgerStore.PostEntry | src/ledger.ts:109-123 | the store moves to the specified state or, on the specified fault, not at all |
| LedgerStore.LedgerStore.PostEntries | src/ledger.ts:131-172 | accepts exactly the batches that go in one after another, with the same state; a refusal gives the specified fault and leaves the store behind the postings before it, for the transaction to take back |
| Chain.RecomputeAccount | src/chain.ts:163-220 | accepts exactly the linked, re-deriving chains that show a needed anchor; a break names the first link that fails, what was expected and what is stored |
| Chain.HashesNeverRepeat | src/chain.ts:163-220 | no hash occurs twice in a linked chain, nor comes back to its start |
| Chain.HeadDeterminesHistory | src/chain.ts:163-220 | two accepted chains with the same head agree link by link on id, metadata and amounts |
| Chain.AnchoredWalkExact | src/chain.ts:156-220 | of an honest chain archived through link k, exactly the empty suffix and those starting at or before k+1 are accepted |
| Chain.TamperedContentBreaks | src/chain.ts:194-204 | editing any link's id, metadata or own amounts under an unchanged hash is always reported |
| Preimage.LengthPrefixed | src/ledger.ts:384-397 | the filled buffer is the frames behind their four-byte lengths, in one array of exact size |
| Preimage.FramedInjective | src/ledger.ts:381-397 | the framed bytes determine how many frames there were and each of them |
| Preimage.Utf8Injective | src/ledger.ts:347-350 | equal UTF-8 bytes mean equal texts |
| Preimage.Utf8CharSays | src/ledger.ts:347-350 | each code point in the shortest form of section 3 of RFC 3629 |
| Preimage.OwnTextDeterminesAmounts | src/ledger.ts:204-210 | the sorted NUL-joined text determines the multiset of an account's amounts |
| Preimage.ChainPreimageInjective | src/ledger.ts:194-213 | equal preimages mean equal head, id, metadata and multiset of own amounts |
| Preimage.ChainPreimageIgnoresLegOrder | src/ledger.ts:204-210 | reordering legs never changes the hashed bytes |
| Preimage.ChainLayout | src/ledger.ts:191-213 | byte by byte: head, id, own amounts and metadata, each behind its four-byte length |
| Integrity.FoldLedger | src/integrity.ts:179-245 | the two passes give the conservation totals, whether any wallet is negative, and exactly the drifted accounts, phantom rows included |
| Integrity.ProveChain | src/chain.ts:134-154 | intact exactly when every account's chain is |
| Integrity.ProveEconomy | src/integrity.ts:95-127 | each flag holds exactly when its property does: conserved when every currency sums to zero over all legs, drift listing exactly the accounts whose stored balance is not what their legs add up to |
| Integrity.ConservationExchange | src/integrity.ts:227-245 | summed per account over all postings or per posting over all accounts, the conservation total is the same |
| Integrity.LineageIsLinked | src/adapters/memory.ts:720-745 | a valid ledger's lineage of any account re-derives from genesis and ends in its head |
| Integrity.ValidPassesProof | src/integrity.ts:95-245 | every valid ledger is reported conserved, without overdraft, intact and consistent |
| Integrity.EveryRunPassesProof | src/ledger.ts:109-172 | after every run of single and batched postings from the empty ledger the prover accepts |
| Integrity.RunGoesOn | src/ledger.ts:109-172 | such a run goes on by every posting or batch that is taken, and stays where it is otherwise |
| SettlementNet.ChunksAddUpToNet | src/netting.ts:421-431 | the chunks' effect on every account is the journal's net, and on clearing zero |
| SettlementNet.OneChunkMoves | src/netting.ts:421-431 | whatever the width, an account other than clearing is moved by the one chunk that holds it and by no other |
| SettlementNet.IdleChunk | src/netting.ts:656-665 | a chunk that holds clearing alone moves nothing |
| SettlementProof.CompensationIsOpposite | src/netting.ts:645-664 | a chunk and its compensation cancel on every account |
| SettlementProof.EffectIsTally | src/netting.ts:645-731 | a session's effect on an account is posted chunks less compensations plus replays, each counted once |
| SettlementProof.TransactStep | src/netting.ts:666-683 | one transaction, whatever others post first, adds at most its own id and never a second copy |
| SettlementProof.PostChunksFacts | src/netting.ts:439-444 | exactly the chunks before the stopping point are added |
| SettlementProof.CompensateFacts | src/netting.ts:445-450 | exactly the compensations down to the stopping point are added |
| SettlementProof.ReplayFacts | src/netting.ts:689-722 | after replay each movement is on the ledger exactly if it was not reported rejected |
| SettleReport.SettleReportsTrue | src/netting.ts:403-464 | whatever gets in between: netted counts the journal and the head is its last hash; a netted report counts the session's chunks on the ledger, a replayed one its movements there, and lists in order exactly the ones that are not, each with a fault the ledger gave it |
| Recovery.FirstSettleIsExact | src/netting.ts:403-464 | with arbitrary others in between, a returned first settle's effect is the sum of exactly the movements it does not reject, each id at most once, zero on clearing |
| Recovery.SettleIsExactWhen | src/netting.ts:403-464 | any settle, live or recovered, after any earlier ones, under any interleaving and crash: nothing posted twice; a returned report is exact if and only if the ledger it started on had no standing chunk (forced replay), or its undone chunks add up to its replayed movements (netted); after a failover always |
| Recovery.EveryAttemptIsDecided | src/netting.ts:403-464 | after any sequence of settles, returned or not, the next one is again one that theorem decides |
| Recovery.AttemptsGoOn | src/netting.ts:403-464 | each attempt starts on the ledger the ones before it left |
| Recovery.NettedEffect | src/netting.ts:439-464 | once all chunks are in, every account has moved by the full net, less chunks undone before, plus movements replayed before |
| Recovery.StandingChunksShow | src/netting.ts:439-448 | chunks posted and not undone are off on some account, exactly unless they hold clearing alone |
| Recovery.RecoveredSettleIsExactWhen | src/netting.ts:757-781 | a recovered settle is exact if and only if the ledger before it is not stranded: no failover posting, or no chunk still standing |
| Recovery.RecoveryIsExactUnlessStranded | src/netting.ts:415-454 | over any number of lives that crash or throw, a report is exact if and only if no life began on a stranded ledger |
| Recovery.RecoverGoesOn | src/netting.ts:757-781 | recovery goes on from the ledger a life left, until one returns or none is left |
| Recovery.OnlyHalfUndoneStrands | src/netting.ts:439-448 | from a ledger not stranded, a recovered settle strands one exactly when it stops, by crash or throw, between two compensations |
| Recovery.RecoveredMatchesUncrashed | src/netting.ts:415-454 | without rejections a crashed and recovered run moves every account as an uncrashed one does |
| Recovery.SecondSettleIsExactWhen | src/instance.ts:335-340 | a second settle of the live object: exact if it fails over again; if it nets it reports nothing rejected and is exact if and only if the first undid what it replayed |
| Recovery.SecondSettleAfterNetted | src/instance.ts:335-340 | once a first settle has netted, every further report of the live session is exact |
| Recovery.SecondSettleAfterReplayed | src/instance.ts:335-340 | once a first settle has replayed everything, a netted second report is exact if and only if every chunk that moves something was undone, which never holds where no movement touches clearing |
| SecondSettleRun.SecondSettleDoubleCounts | src/instance.ts:335-340 | a concrete fresh, funded ledger and two settles whose second report is wrong |
| HalfUndoneRun.CrashBetweenCompensationsBreaksRecovery | src/netting.ts:763-771 | a concrete fresh, funded ledger and two lives whose final report is wrong |
| Screening.ScreenedJournalIsRejectedWhen | src/netting.ts:439-454 | alone on the ledger, what settling a screened journal does by the balances before the call: it throws exactly if a chunk posted before a refused one has no storable opposite, nets exactly if all chunks go in, and rejects nothing exactly if they do or every movement's running balances are storable; then every account ends at opening plus movements |
| Screening.ChunkAcceptedWhen | src/netting.ts:439-444 | whether a chunk's posting is accepted is read off the opening balances: its legs and the balances it leaves |
| FullColumnRun.ScreenedGiftIsRejected | src/netting.ts:499-512 | a screened movement into a balance at the top of its column is rejected at settle |
| Screening.PostingGoesIn | src/ledger.ts:303-335 | a well-formed posting that fits and overdraws no guarded account is accepted |
| Screening.OverdrawnIsRefused | src/ledger.ts:303-335 | a posting that overdraws a guarded account is refused |
| Screening.CompensationsGoIn | src/netting.ts:445-450 | alone on the ledger a compensation is refused only for an amount with no storable opposite; otherwise all go in and the opening balances are back |
| TxnIds.RenderDeterminesId | src/netting.ts:651-653 | chunk, compensation and replay ids never render alike, within or across sessions |
| TxnIds.RenderTexts | src/netting.ts:650-653 | the id texts of a chunk, its compensation and a replayed movement |
| SessionHost.Host.Transact | src/netting.ts:666-683 | one transaction behind arbitrary others, a no-op when its id is stored |
| SessionHost.MovementStore.Append | src/adapters/memory.ts:1634-1655 | a batch goes in whole, or not at all when a key or position repeats |
| SessionHost.Reservations.Add | src/netting.ts:120-131 | returns the post-add total and moves one account only |
| NettingSession.InstanceSession.Unwind | src/netting.ts:525-531 | backing out subtracts exactly what was applied, per account |
| NettingSession.InstanceSession.Reserve | src/netting.ts:477-520 | accepts exactly the movements whose every debit is covered when it is added; any refusal leaves every pending total as it was |
| NettingSession.InstanceSession.ReserveLegs | src/netting.ts:497-519 | names the first leg that fails, as insufficient or overflowing |
| NettingSession.InstanceSession.Flush | src/netting.ts:379-386 | the batch leaves memory whether or not the journal takes it |
| NettingSession.InstanceSession.Record | src/netting.ts:334-376 | settled refuses, a seen key replays, a new key is chained exactly when the screen covers it; the screened invariant is kept |
| NettingSession.InstanceSession.ReadJournal | src/netting.ts:618-641 | accepts exactly the journals that re-derive from genesis |
| SessionText.ChainTextDetermines | src/netting.ts:598-613 | whatever the keys hold, the hashed text determines head, key and legs where no account id has a bar or a semicolon in it |
| SessionText.LegTextDetermines | src/netting.ts:607-609 | a leg's text determines account, currency and amount, colons in ids included |
| SessionText.TwoLegText | src/netting.ts:596-612 | the text hashed for a movement of two legs |
| SessionText.BarInIdIsAmbiguous | src/netting.ts:610-613 | with a bar in a user id, two movements under different keys hash the same text |
| NettingSession.LostBatchBreaksChain | src/netting.ts:379-386 | after a refused flush the journal re-derives if and only if the lost batch or what was journaled after it is empty |
| NettingSession.SurvivorsChain | src/netting.ts:618-641 | however many batches were lost, the journal re-derives if and only if it is a prefix of what was accepted |
| NettingSession.LostMovementsAreNowhere | src/netting.ts:403-464 | a settle over such a prefix is exact for it, and the accepted movements beyond it are neither posted nor reported |
| LostBatchRun.LoseBatch | src/netting.ts:379-386 | two sessions, one key: the second one's batch is refused and gone |
| LostBatchRun.SettleAfterLoss | src/netting.ts:403-414 | settled at once, it reports nothing rejected, still answers accepted, and posts nothing |
| LostBatchRun.JournalAfterLoss | src/netting.ts:618-641 | with one more movement journaled, its settle finds the chain broken |
| NettingSession.ScreenedSnoc | src/netting.ts:477-520 | accepting one more movement keeps every prefix of the journal covered for every wallet |
| NettingSession.NetPositions | src/netting.ts:421-427 | the nonzero nets per account in first-touch order |
| NettingSession.CutChunks | src/netting.ts:428-431 | slices of at most the width, in order, nothing lost |
| NettingSession.InstanceSession.ChunkCount | src/netting.ts:786-800 | the counted ceiling is the number of chunks settle would post |
| NettingSession.InstanceSession.PostChunk | src/netting.ts:645-684 | builds and range-checks the chunk's legs, then the specified transaction |
| NettingSession.InstanceSession.Replay | src/netting.ts:689-722 | the specified replay; rejected keys change their remembered outcome |
| NettingSession.RenounceSays | src/netting.ts:689-722 | once replayed, a refused key is answered with the fault the ledger gave, and any other as before |
| NettingSession.InstanceSession.ReleaseReservations | src/netting.ts:557-592 | gives back exactly what the accepted movements reserved, once |
| NettingSession.InstanceSession.Settle | src/netting.ts:403-464 | a broken journal touches no ledger; otherwise ledger and report are the specified ones, the report over the whole journal; for a first settle exact, its counts true of the ledger, over a prefix of the accepted movements when batches were lost; and, when quiet, with the rejections the opening balances decide |
| NettingSession.InstanceSession.Recover | src/netting.ts:734-782 | memory, path flags and reservations rebuilt from journal and ledger; a recorded journal gives a valid session again |
| NettingSession.InstanceSession.FailedOver | src/netting.ts:765-778 | the probes find any compensation or replay posting of the session |
| Prefund.RefundEscrowRemainder | src/netting.ts:265-287 | the escrow is emptied into spendable and nothing else moves, only where its id was not on the ledger, where it then is; it fails only for an amount a column cannot hold, and then nothing moves |
| Prefund.RefundIdsMeetWhen | src/netting.ts:265-275 | exactly when two refunds share an id, and so one posting |
| ConcurrentScreen.EveryInterleavingIsScreened | src/netting.ts:477-531 | in every interleaving of adds and unwinds, balance plus checked deltas stays non-negative and the registry is accepted plus in-flight |
| ConcurrentScreen.QuietRegistryHoldsAccepted | src/netting.ts:522-531 | at quiescence the registry holds the accepted movements alone and they are covered |
| ConcurrentScreen.TakeKeepsCover | src/netting.ts:499-512 | no single step of any session can uncover an account when debits come first |
| ConcurrentScreen.DebitsFirstIsExact | src/netting.ts:477-531 | a movement of nonzero wallet legs is safe among lane movements, in every run, if and only if no debit of it follows a credit |
| ConcurrentScreen.CreditsFirstOverspend | src/netting.ts:499-512 | every such movement that opens with a credit has non-negative balances and a run of two sessions that ends idle and overspent |
| Merkle.SplitPointIsUnique | src/chain.ts:335-345 | the split is the largest power of two below n, as section 2.1 of RFC 6962 asks |
| Merkle.PairingKeepsTree | src/chain.ts:706-718 | folding one level, last node carried, leaves the recursive tree unchanged |
| Merkle.MerkleRoot | src/chain.ts:346-362 | the level loop computes the recursive tree over account-sorted leaves, zero bytes when there are none |
| Merkle.MerkleSumRoot | src/chain.ts:374-407 | the same for the sum tree; it throws exactly when some node's sum leaves i64 |
| Merkle.RootSumIsTotal | src/chain.ts:364-373 | the root's sum is the total of all leaf sums |
| Merkle.RootIgnoresOrder | src/chain.ts:378 | with one row per account the order rows are read in never shows |
| Merkle.RootDeterminesLeaves | src/chain.ts:364-407 | equal root hashes mean equal sorted leaf lists |
| Merkle.HeadRootPinsHeads | src/chain.ts:346-362 | the hash-only root pins accounts and heads, in any order |
| Merkle.ThreeHeads | src/chain.ts:346-362 | three heads in id order: two paired, the third carried up beside them |
| Merkle.TwoSums | src/chain.ts:374-407 | a sum node joins its children in order and carries their sum |
| Merkle.NoRootOverUnstorable | src/chain.ts:374-407 | a sum outside i64 makes the root throw, and no root carries one |
| LeafBytes.LeafDeterminesContent | src/chain.ts:698-704 | a version-1 leaf's bytes determine account and head |
| LeafBytes.SumLeafDeterminesContent | src/chain.ts:738-749 | a sum leaf's bytes determine account, head and sum |
| LeafBytes.SumNodeDeterminesContent | src/chain.ts:751-764 | a sum node's bytes determine both children and the total |
| LeafBytes.TagsSeparate | src/chain.ts:690-734 | no leaf reads as a node and no version-1 preimage as a version-2 one |
| LeafBytes.Int64BESays | src/bytes.ts:71-82 | a sum's eight bytes are its two's complement, most significant first |
| LeafBytes.Layouts | src/chain.ts:690-764 | each preimage's tag, and what stands where behind it |
| Seal.HeadSums | src/adapters/memory.ts:513-525 | each head with the raw leg total of its account |
| Seal.MakePlan | src/chain.ts:516-569 | full, incremental, truncation or overflow; incremental only over a snapshot whose own root and sum the latest checkpoint holds and signs |
| Seal.PlanTrustsOnlyVouched | src/chain.ts:502-569 | incremental exactly for a non-empty snapshot the latest checkpoint vouches for and whose accounts all live; with one gone, refused |
| Seal.VouchedAreSealed | src/chain.ts:537-548 | a checkpoint vouches for a snapshot exactly if it is the sealed leaves |
| SealRuns.DirtyAreMoved | src/chain.ts:550-568 | dirty are exactly the leaves whose head the snapshot does not hold |
| Seal.WalkTail | src/chain.ts:580-621 | accepts exactly the tails that join the sealed head, re-derive and pass the live head; a break names the first link that fails, or the head never reached |
| Seal.ProveDirtyTails | src/chain.ts:575-623 | accepts exactly when every dirty account's tail does |
| Seal.DirtyTailIsFullProof | src/chain.ts:571-574 | over a verified sealed prefix the tail proof is the full proof plus the live head lying past the seal, both ways |
| Seal.AcceptedTailsAreFullProof | src/chain.ts:447-461 | wherever heads are read from, an accepted incremental proof is a full proof exactly if what is stored past an unmoved head links up |
| Seal.IncrementalIsFullProof | src/chain.ts:447-461 | with heads read as the tips of the stored links, exactly if no unmoved account stores a later link repeating its sealed head's hash |
| Seal.StrayRowEscapes | src/chain.ts:566 | such a link, attached at the head and carrying its hash, moves no head, passes the incremental proof and never the full one |
| Seal.CheckpointStore.RecordCheckpoint | src/chain.ts:427-500 | signs and stores as specified, and on any refusal nothing; a seal that goes through sums to zero and proved every chain, or had a vouched snapshot; over a snapshot that is not the sealed leaves it proved every chain |
| Seal.SealStandsFor | src/chain.ts:427-500 | what a checkpoint stands for: a full or tail proof, leaves that sum to zero and that it vouches for, no sealed account gone |
| Seal.RefusalStandsFor | src/chain.ts:427-500 | what each refusal says of the ledger |
| Seal.ForgedSnapshotIsProvedWhole | src/chain.ts:511-548 | over a snapshot that is not what was sealed, no seal goes through unless every chain re-derives |
| Seal.VerifyCheckpoint | src/chain.ts:639-674 | recomputes the root by the checkpoint's version; fewer rows than recorded, another root or sum, or a foreign signature fails |
| Seal.CheckpointPinsItsLeaves | src/chain.ts:625-674 | a sealed checkpoint holds exactly over the leaves it was sealed on, whatever their order |
| Seal.OldCheckpointPinsItsHeads | src/chain.ts:639-674 | before version 2 the same, of accounts and heads |
| Seal.ChecksMean | src/chain.ts:639-674 | what a stored checkpoint of either version takes to hold |
| SealRuns.ValidBooksNetToZero | src/chain.ts:470-476 | the leaves of a valid ledger sum to zero, so the last-resort check never fires on one |
| SealRuns.UpsertMakesLive | src/chain.ts:489-498 | upserting only the dirty leaves turns the old snapshot into the live leaves |
| SealRuns.HonestSeal | src/chain.ts:427-500 | over honest books a seal refuses only for a subtree sum outside i64, and the stored rows re-derive the new root and sum |
| SealRuns.NextSealIsIncremental | src/chain.ts:516-569 | a stored snapshot of honest books makes the next plan incremental |
| SealRuns.EveryRunSeals | src/chain.ts:427-569 | all of that after every run of postings and seals |
| SealRuns.RunGoesOn | src/chain.ts:427-500 | such a run goes on by every posting that is taken and every seal that goes through |
| Archive.MergeArchiveSums | src/chain.ts:849-870 | the merged leaves, archived sums folded in and fully pruned accounts re-entered |
| Archive.MergedTotal | src/chain.ts:846-870 | the merged total is live plus archived, nothing lost or counted twice |
| Archive.MergeRestoresFullHistory | src/chain.ts:846-870 | where pruning keeps heads, merging gives the leaves of the unpruned ledger |
| Archive.MergeRestoresPrunedAccounts | src/chain.ts:846-870 | where fully archived accounts leave the heads, kept and re-entering rows are together exactly the leaves of the unpruned ledger |
| Maturity.TailSlices | src/maturity.ts:92-124 | the paged newest-first walk yields the slices that cover the balance, whatever the page boundaries |
| Maturity.MaturedBalance | src/maturity.ts:219-242 | the matured part of those slices; `Maturity.OldestLotAdds` says what each lot adds |
| Maturity.MaturedAtLeast | src/maturity.ts:253-284 | stopping early, true exactly when the matured balance reaches the amount |
| Maturity.FifoTail | src/maturity.ts:347-370 | what oldest-first spending of the difference leaves |
| Maturity.MaturedBalanceFullScan | src/maturity.ts:291-306 | the whole-history figure |
| Maturity.PagedWalkEqualsFullScan | src/maturity.ts:219-306 | the two agree for all positive lots, balances and times |
| Maturity.FifoTailIsWhatSpendingLeaves | src/maturity.ts:344-370 | the scan's tail equals simulating any never-overdrawn history of credits and oldest-first debits |
| Maturity.MaturedAvailableAt | src/maturity.ts:132-163 | the first moment the slices cover the amount, and none exactly when no moment does |
| Maturity.AvailabilityAnswersTheSpendCheck | src/maturity.ts:126-163 | the spend check is true from that moment on and false before it |
| Maturity.OldestLotAdds | src/maturity.ts:44-124 | lot by lot: each adds the part the newer ones leave uncovered, once its source's wait, or the default, or the card's, is over |
| Maturity.OneLotMatures | src/maturity.ts:44-163 | one lot over the balance is mature from its top-up plus that wait on, and that moment is the one answered |
| Fold.SignsOnly | src/fold.vendored.ts:53-55 | the sign bit of xor and and comes from the operands' sign bits |
| Fold.TrapTestIsOverflow | src/fold.vendored.ts:52-57 | the test fires exactly when the exact sum leaves i64; otherwise the wrapped sum is exact |
| Fold.XorAndAdd | src/fold.vendored.ts:52-57 | xor and and account for every bit of the sum |
| Fold.Kernel | src/fold.vendored.ts:43-62 | traps exactly when some prefix sum leaves i64, otherwise the exact sum |
| Fold.FoldRef | src/fold.vendored.ts:139-148 | the reference: same totals, same refusals, on stored values |
| Fold.I64Column.Push | src/fold-column.ts:43-51 | appends the value as 64 bits keep it, through a doubling |
| Fold.I64Column.Pop | src/fold-column.ts:53-57 | removes the last value, and nothing from an empty column |
| Fold.FoldColumn | src/fold-column.ts:90-118 | the exact sum on both sides of the threshold; only above it does an overflowing prefix throw |
| Fold.SmallColumnOverflows | src/fold-column.ts:90-98 | two values that sum past the last i64 value, and no throw |
| Batching.SubmitCoalescer.Submit | src/batching.ts:98-112 | queues, then flushes a full queue or schedules once |
| Batching.SubmitCoalescer.Flush | src/batching.ts:71-81 | clears the flag and parks on the first batch |
| Batching.SubmitCoalescer.Wake | src/batching.ts:75-93 | settles the batch, then the next one or the end |
| Batching.EveryRunIsGood | src/batching.ts:62-116 | in every interleaving a waiting queue has a flush scheduled or running, no batch exceeds the maximum, and each waiter is in exactly one place |
| Batching.WakeSettlesOwnSlots | src/batching.ts:75-93 | each waiter is resolved or rejected with its own slot's outcome or error, or with the batch's error; no settlement is ever changed |
| Batching.QuietMeansAllSettled | src/batching.ts:62-116 | at quiescence every waiter submitted has its answer |
| Batching.SubmitSays | src/batching.ts:98-112 | a submit queues last; a full queue is flushed at once as one batch, otherwise one flush is scheduled |
| Batching.FireSays | src/batching.ts:62-81 | a due flush takes the oldest waiters, a full batch if there is one |
| Batching.WakeSays | src/batching.ts:75-93 | a woken flush takes the next batch in its place or ends |
| Batching.StepKeepsGood | src/batching.ts:62-116 | every step from any good state leads to a good one |
| Reconcile.KeyTextDetermines | src/reconcile.ts:282-284 | the index text determines kind and match key |
| Reconcile.IndexByKey | src/reconcile.ts:266-280 | each key's records in order, keys in first-seen order |
| Reconcile.MatchProcessorSide | src/reconcile.ts:156-176 | each processor record meets the oldest unconsumed ledger record of its key; counts add up |
| Reconcile.CollectLedgerOrphans | src/reconcile.ts:180-189 | what no processor record consumed, and nothing else |
| Reconcile.ReconcileWindow | src/reconcile.ts:128-247 | the accounting check never fires; the report lists exactly the discrepancies there are, in order, with exact counts; and reconciled means equal amount sequences per key |
| Reconcile.WindowKeeps | src/reconcile.ts:253-264 | kept are exactly the records with from <= at < to, each once, in order |
| Reconcile.DiscrepanciesAre | src/reconcile.ts:156-189 | a discrepancy is a record past the other side's last of its key, or a pair in the same place with different amounts |
| Reconcile.ReconciledMeansSameAmounts | src/reconcile.ts:156-189 | no discrepancy exactly when every key has the same amounts in the same order on both sides |
| Pricing.FeeIsWholeAndCapped | src/pricing.ts:127-131 | the fee is the smaller of the price and the least whole-credit amount covering the rate |
| Pricing.ShareBound | src/pricing.ts:114-116 | a share is the exact fraction rounded down |
| Pricing.NeverOverdistributed | src/pricing.ts:97-109 | shares never exceed the net, so revenue is never negative |
| Pricing.SaleLegsSumToPrice | src/pricing.ts:60-87 | fee, shares and leftover sum to the price, all as credits |
| Pricing.SplitLegs | src/pricing.ts:60-87 | refused exactly when shares do not sum to the whole; otherwise one line per seller, its rounded-down share of the price less that fee, and revenue the rest |
| Pricing.SaleIsSplit | src/pricing.ts:60-131 | the same of the specified lines, in terms of price and rates alone |
| Pricing.LegsOf | src/instance.ts:396-414 | a purchase's movement: debit first, then the nonzero lines of such a sale, summing to zero |
| Lane.PurchaseIsMovement | src/instance.ts:396-414 | such a movement meets everything a session requires |
| Lane.PurchaseIsDebitsFirst | src/instance.ts:396-414 | such a movement is one the concurrent screens are sound for |
| Lane.SpendWithinMatured | src/instance.ts:467-484 | what the screen compared bounds the buyer's accepted total by the balance mature at first touch, plus what others had reserved into it before the lane |
| Lane.PurchaseIsLaneStart | src/instance.ts:396-414 | a purchase by a touched buyer is one that lanes may start among each other |
| SharedLanes.LanesStayWithinMatured | src/instance.ts:467-495 | in every interleaving of all lanes' touches, adds, unwinds and releases, what they together take from a buyer stays within the most that was mature at a touch, and the registry is what is reserved less the holds |
| SharedLanes.OnlyPassedDebitsTake | src/netting.ts:499-531 | the only step that takes more from an account is a debit of it that was compared with the balance less every hold |
| SharedLanes.AddIsCompared | src/netting.ts:499-531 | a leg is compared with the balance and what the registry reads, holds included, and reserved or turned back |
| SharedLanes.TouchParks | src/instance.ts:467-500 | a touch parks the immature part with the registry, a release gives back exactly that |
| SharedLanes.MostIsSomeTouch | src/instance.ts:467-484 | what counts as mature of a buyer is what some touch left after its hold |
| Lane.InstanceEconomy.HoldImmature | src/instance.ts:467-484 | parks live less matured, once per buyer, whatever has become of the session |
| Lane.InstanceEconomy.FirstTouchSpends | src/instance.ts:467-484 | at first touch a buyer can spend what is mature, less what is reserved from the balance |
| Lane.CheckRecipients | src/operations/guards.ts:78-131 | which recipient lists are refused |
| Lane.InstanceEconomy.RunPurchase | src/instance.ts:248-316 | on a lane in any state: which input is refused; known orders replay; the hold is parked; the cap denies exactly what would pass it; otherwise bought exactly if the session is open and either knows the order as accepted, or the price is covered and the batch it completes is not refused; a closed session throws; what is journaled is that sale, line by line; accepted spend never passes the cap, or what was mature at a touch |
| Lane.PurchaseIsAcceptableWhen | src/netting.ts:477-520 | the screen accepts a purchase exactly when the buyer's spendable balance covers the price |
| Lane.InstanceEconomy.ReleaseImmatureHolds | src/instance.ts:486-495 | returns every hold and forgets it |
| Lane.InstanceEconomy.RunSettle | src/instance.ts:334-369 | the session is asked once; totals are restored exactly if what is accepted is released or nothing; under a kept report they are, and it is exact, if and only if no purchase was admitted since it was kept |
| Lane.KeptReportIsExactWhen | src/instance.ts:335-340 | a kept report is exact for what is accepted by now if and only if nothing was accepted after it |
| Lane.RestoredWhen | src/instance.ts:486-495 | with no hold left, every pending total is what it was if and only if all that was accepted is released |
| LateSaleRun.SettleThenBuy | src/instance.ts:334-369 | settled empty, then bought, then settled again: the same report, the movement nowhere, the reservation kept |
| LateSaleRun.LoseThenBuy | src/instance.ts:248-316 | an order whose batch is refused and lost, bought when it is tried again |

## Left out

- Recovery.RecoveryIsExactUnlessStranded: every life uses the same chunk width; the code's own probes assume it too.
- Settlement.Transact: a refused transaction has posted nothing; a commit whose acknowledgement is lost, which settle's bare catch would also take for a refusal, is not modelled.
- Accounts.IsWalletAccount: user ids that begin with `platform:`, which the code takes for no wallet and may even take for a shard, are outside the model.
- Lane.InstanceEconomy.RunPurchase: the bound on accepted spend is for balances that stay as they were read; one call runs undisturbed, and lanes sharing a registry are in `SharedLanes`. Sku and product-kind checks, entitlement grants and revokes, events and meters are not modelled; the flat fee is the pricing policy and prefund is off.
- NettingSession.InstanceSession.Record: one call runs undisturbed; interleaving of several sessions' steps is in `ConcurrentScreen`.
- NettingSession.InstanceSession.ReleaseReservations: the process-scope registry only; the shared counter and its durable release claim, which may leak by design, are not modelled.
- NettingSession.InstanceSession.ReadJournal: rows of one session come back in append order, which is position order under a single writer; the session hash is taken over the parts of its text, which `SessionText` shows the text to determine unless ids hold separators.
- Preimage.Utf8Injective: characters are code points, so lone UTF-16 surrogates, which the encoder replaces, are not covered.
- Money.ParseUndoesFormat: the ungrouped form the wire uses; digit grouping is not modelled.
- Integrity.ProveEconomy: the backing ratio and the archival baselines are not modelled, so the report has no backed flag or shortfall.
- SealRuns.EveryRunSeals: runs of a ledger that is never pruned; the archival merge is proved on its own in `Archive`.
- Merkle.RootIgnoresOrder: for rows with one row per account id, as the store keeps them.
- Canonical metadata JSON is taken as text; accounts and transaction ids are taken parsed.
- The SQL engines, their constraints and drivers.
- The submit pipeline and operation handlers, HTTP, webhooks, configuration.
- The WebAssembly module's bytes and memory growth; the kernel is modelled from its instruction listing.
- Cluster, router, orphan sweep and lane manager.
- Abort signals, logging, metering, telemetry.
