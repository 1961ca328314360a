# Verified models of the site's stateful components

This Dafny project models the parts of the site where state, interleaving or arithmetic
matter, and proves properties that hold over every run or every input. `dafny verify
dfyconfig.toml` checks all of it.

| Component | Modules |
|---|---|
| Line distributor: one producer, bounded queues, one inputter and one outputter thread per child (`scripts/hashdist.py`) | `HashDist`, `HashDistTheorems`, `HashDistDelivery`, `HashDistRest` |
| Moderation relations, temporary bans, mute index and moderation log (`r2/r2/controllers/api.py`, jobs of `r2/r2/models/subreddit.py`) | `Moderation`, `ModerationTheorems`, `ModerationEffects` |
| Comment counter under a 60-second lock entry (`r2/r2/controllers/api.py`) | `CommentDelete` |
| Gold prices, transaction secrets, webhooks and the ledger they drive (`r2/r2/controllers/ipn.py`) | `GoldPrices`, `GoldSecret`, `GoldWebhook`, `GoldCases`, `GoldLedger` |
| Payment blobs and creddit spending as interleaved requests (`r2/r2/controllers/ipn.py`) | `Payments`, `PaymentTheorems`, `PaymentDeliveries`, `PaymentReopenings`, `PaymentBalances`, `PaymentRaces` |
| Duplicate PayPal renewal notices (`r2/r2/controllers/ipn.py`) | `PaypalRenewal` |
| Host labels and the subreddit redirect (`r2/r2/config/middleware.py`) | `DomainMiddleware`, `DomainAnswers`, `DomainRedirect` |
| Double-checked loading of controllers and hooks (`r2/r2/config/middleware.py`) | `AppSetup` |
| In-place percent-decoding, query parsing and parameter selection in C (`scripts/traffic/utils.c`, `scripts/traffic/verify.c`) | `CStrings`, `UrlDecode`, `UrlCodec`, `TrafficQuery`, `TrafficParams`, `TrafficVerify`, `TrafficCheck` |
| Markov text generator (`scripts/inject_test_data.py`) | `Ngrams`, `MarkovText`, `MarkovTheorems` |
| Python's `split` and `join`; optional values | `SplitJoin`, `Wrappers` |

Concurrent components are state machines: a position per thread or request, a step function
for each statement that touches shared state, and a run for each sequence of labels, so a
theorem about all label sequences is a theorem about all interleavings. Components that
update objects in place are classes and array methods, each proved equal to a specification
function whose properties are then proved as lemmas.

## What the proofs found

Each of these is a property that one would expect and that the code does not have; the code
is modelled as it is, and the exact condition is proved.

- The distributor's output is complete if and only if every line has a key and no write to
  stdout fails (`HashDistRest.CompleteIff`). A line whose first character is a separator makes
  the main thread die without sending terminators, and the other threads wait for ever. A
  failed write evaluates `errno.EPIPE` in a handler (`scripts/hashdist.py:85`) where `errno`
  was never imported, so that one outputter thread dies and the process lives on: it exits with
  lines lost, or hangs if the child, whose output nobody reads any more, has more input than
  it reads before its pipe is full (`HashDistRest.RestingStates` has the exact condition,
  `ExitsWithOutputLost` and `HangsWithAllKeys` a run of each kind).
- A CSRF check that raises is not repeated: the controllers are already stored, so the next
  request registers the hooks and is let in unchecked (`AppSetup.FailedCsrfCheckIsSkippedNextTime`).
- The comment count drops by exactly one if and only if every request that found the comment
  undeleted reached the lock before the first entry expired
  (`CommentDelete.CountDropsByOneIffLockNeverExpires`, `TwoDecrements`).
- A user who is banned or muted after having been invited can still accept and becomes a
  moderator (`ModerationTheorems.BannedInviteeBecomesModerator`); no other handler does this.
- Contributors who leave by themselves are missing from the log; everything else can be
  replayed (`ModerationTheorems.ReplayIsExactIff`, `LeavingIsNotLogged`).
- Months and days agree, and paying more never buys fewer days, if and only if a year costs at
  most twelve months; the assertion on multiples of twelve needs only thirteen
  (`GoldPrices.RoutesAgreeIff`, `PayingMoreNeverLosesIff`, `AssertionHoldsIff`). The example
  prices, 3.99 and 29.99, satisfy both.
- A gift secret can be read back if and only if neither the recipient nor the payment code
  contains a dash. Both can: user names allow it, and payment codes are url-safe base64
  (`r2/r2/models/token.py:39`). The refund of such a gift raises (`GoldLedger.GiftRefundWorksIff`).
- A success delivered after a refund raises for purchases made through a blob, and pays a
  second time for invoices (`GoldLedger.DirectPurchaseExactIffAppliedOnce`,
  `SuccessAfterRefundPaysAgain`).
- `update_blob` writes back a copy it read without a lock and can make a locked or processed
  blob available again. A blob is handed out more than once if and only if some step hands it
  out after such a write (`PaymentReopenings.HandedOutTwiceIff`,
  `PaymentTheorems.ReopeningIsStaleUpdate`, `PaymentRaces.StaleEditHandsOutTwice`).
- `POST_spendcreddits` checks and commits a copy of the balance that was loaded before the
  lock was taken, and refunds of creddits have no floor. A commit costs exactly its months if
  and only if the stored balance is what it was when the copy was taken
  (`PaymentBalances.CommitIsExactIffUnchanged`). Among spends, purchases and refunds a balance
  becomes negative if and only if a spend commits that found less than its months when it
  reloaded the account for its delivery, or a refund takes back more than is stored
  (`NeverNegativeIff`, `OverdraftNeedsAnotherDebit`). Two spends at once overdraw the account,
  or get ten months for five creddits (`PaymentRaces.ConcurrentSpends`); a refund of creddits
  that were spent overdraws it too (`RefundAfterSpend`).
- The subreddit redirect is followed by a second one if and only if no label was kept and the
  configured `domain_prefix` is itself taken for a subreddit, and by redirects without end if
  and only if every label of that prefix is (`DomainRedirect.RedirectsAgainIff`, `EndlessIff`,
  `UnreservedPrefixLoops`).

## Model

| member | source | states |
|---|---|---|
| `HashDist.HashSelect` | scripts/hashdist.py:92-93 | the choice is one of the processes, and its number is congruent to the hash |
| `HashDist.FirstField` | scripts/hashdist.py:133 | the default key is the longest prefix without a separator; there is none exactly for an empty line or a leading separator |
| `HashDist.DefaultConfig` | scripts/hashdist.py:115-133 | with any children that keep reading the default options form a configuration to which every theorem applies |
| `HashDistDelivery.DefaultWorker` | scripts/hashdist.py:92-133 | by default a line's worker has the number that is congruent to the hash of its first field |
| `HashDistTheorems.InvAlways` | scripts/hashdist.py:45-177 | queues, in-flight items, task counts, terminators, pipes, mutex and stdout agree in every state of every interleaving, with failing writes anywhere |
| `HashDistDelivery.LineIsAtItsWorker` | scripts/hashdist.py:151-161 | in every interleaving each dispatched line stands at the worker its key selects, behind exactly the earlier lines that select the same worker |
| `HashDistDelivery.NothingElseIsGiven` | scripts/hashdist.py:151-167 | everything a worker was given is such a line, or its terminator at the end |
| `HashDistTheorems.WorkerGetsItsShareInOrder` | scripts/hashdist.py:45-61 | delivered plus in-flight plus queued items of a worker are its share of the dispatched lines, with the terminator last, and the task count agrees |
| `HashDistTheorems.StdoutIsWholeLines` | scripts/hashdist.py:78-87 | stdout is made of whole child lines in each child's order, of what the mutex holder has written, and of one cut line for each outputter whose write failed: the beginning of its next line |
| `HashDistTheorems.SharesPartitionTheInput` | scripts/hashdist.py:151-161 | every line of the input occurs in the workers' shares together exactly as often as in the input |
| `HashDistTheorems.EqualKeysShareAWorkerInOrder` | scripts/hashdist.py:151-161 | lines with equal keys go to one worker, the earlier one first |
| `HashDistRest.JoinedQueueMeansFinished` | scripts/hashdist.py:169-173 | once a terminated queue has been joined its inputter thread is over, so the thread join does not block |
| `HashDistRest.Progress` | scripts/hashdist.py:151-175 | until the program exits or its main thread dies some thread can move, unless the main thread waits for an inputter whose child is blocked on a pipe that its dead outputter no longer reads |
| `HashDistTheorems.EveryRunIsFinite` | scripts/hashdist.py:45-177 | a measure bounds the length of every interleaving |
| `HashDistRest.RestingStates` | scripts/hashdist.py:151-177 | a run that has come to rest has exited if and only if every line has a key and, for each outputter that died, what its child reads before its pipe is full, and what fits into its stdin, covers all its lines; otherwise the main thread has died on the first line without a key or waits for a jammed inputter |
| `HashDistRest.JammedDoesNotFit` | scripts/hashdist.py:55-58 | an inputter that cannot write for ever has more lines than that |
| `HashDistRest.ExitedIsComplete` | scripts/hashdist.py:165-177 | at exit every child got its share followed by end of file, and its whole output was printed if and only if its outputter did not die |
| `HashDistRest.DeadIff` | scripts/hashdist.py:81-87 | an outputter is dead if and only if one of its writes failed |
| `HashDistRest.CompleteIff` | scripts/hashdist.py:151-177 | a run at rest has exited with everything printed if and only if every line has a key and no write to stdout failed |
| `HashDistRest.ComesToRest` | scripts/hashdist.py:45-177 | from every state that was not aborted the run can be continued, without failures, until no thread can move |
| `HashDistRest.OutputIsLost` | scripts/hashdist.py:78-87 | for every configuration whose first child prints before it reads there is a run that loses its output, and it exits exactly under the condition of `RestingStates` |
| `HashDistRest.ExitsWithOutputLost` | scripts/hashdist.py:85 | a run that exits although a line was lost |
| `HashDistRest.HangsWithAllKeys` | scripts/hashdist.py:85 | a run that hangs although every line has a key |
| `HashDistRest.DeadMainStarvesInputter` | scripts/hashdist.py:157-167 | after the main thread has died each inputter waits on its empty queue, or is jammed; no child's stdin is closed and no outputter ends by itself |
| `Moderation.Subreddit.CheckFriend` | r2/r2/controllers/api.py:1016-1086 | exactly the requests that are refused: invite limit, moderators, mutes, and privileges of banned or muted users |
| `Moderation.Subreddit.ApplyBan` | r2/r2/controllers/api.py:1109-1142 | the new schedule and the logged details, with the six-hour buffer and the change to a permanent ban |
| `Moderation.Subreddit.PostFriend` | r2/r2/controllers/api.py:947-1162 | the whole new state: relations, schedule, mute index and log |
| `Moderation.Subreddit.PostUnfriend` | r2/r2/controllers/api.py:770-882 | the whole new state, with a log entry only when something was removed |
| `Moderation.Subreddit.PostAcceptModeratorInvite` | r2/r2/controllers/api.py:1240-1259 | an invite is turned into a moderator with one entry; without an invite nothing changes |
| `Moderation.Subreddit.PostLeaveModerator` | r2/r2/controllers/api.py:694-703 | a moderator is removed and logged; others change nothing |
| `Moderation.Subreddit.PostLeaveContributor` | r2/r2/controllers/api.py:710-717 | a contributor is removed without an entry |
| `Moderation.Subreddit.PostMuteMessageAuthor` | r2/r2/controllers/api.py:1935-1972 | a new mute changes relation, index and log together |
| `Moderation.Subreddit.PostUnmuteMessageAuthor` | r2/r2/controllers/api.py:1981-2002 | an unmute changes relation, index and log together |
| `Moderation.Subreddit.UnbanJob` | r2/r2/models/subreddit.py:3085-3103 | a due unban removes the relation and logs it if there was one |
| `Moderation.Subreddit.UnmuteJob` | r2/r2/models/subreddit.py:3191-3198 | a due unmute clears relation and index and logs it |
| `ModerationTheorems.InvAlways` | r2/r2/controllers/api.py:862-1162 | schedules belong to bans, the mute index is the muted relation, moderators and invites are disjoint, in every reachable state |
| `ModerationTheorems.NextExplained` | r2/r2/controllers/api.py:1063-1162 | every event leaves the log as it is and the relations as the log shows them, or adds one entry that accounts for the whole change |
| `ModerationTheorems.ReplayRebuilds` | r2/r2/controllers/api.py:694-2002 | replaying the log gives the six logged relations, and the contributors together with those who left silently |
| `ModerationTheorems.ReplayIsExactIff` | r2/r2/controllers/api.py:710-717 | the log gives the relations exactly if and only if no contributor has left silently |
| `ModerationTheorems.LeavingIsNotLogged` | r2/r2/controllers/api.py:710-717 | adding a contributor who then leaves is a run whose log does not give the relations |
| `ModerationTheorems.BanCallSchedules` | r2/r2/controllers/api.py:1109-1140 | after an accepted ban with a duration the pending end is less than six hours from the requested one; without a duration none is pending |
| `ModerationTheorems.OnlyAcceptMakesRestrictedModerators` | r2/r2/controllers/api.py:1251-1259 | moderators stay unbanned and unmuted, except if and only if a banned or muted user accepts an invite |
| `ModerationTheorems.BannedInviteeBecomesModerator` | r2/r2/controllers/api.py:1251-1259 | invite, ban, accept is such a run |
| `ModerationEffects.RelatedIff` | r2/r2/controllers/api.py:694-2002 | after any run a user has a relation if and only if some event gave it and none since took it away, or the creator has been moderator from the start |
| `ModerationEffects.HowModeratorsAreMade` | r2/r2/controllers/api.py:979-1259 | after any run a moderator is the creator, has accepted an invite, or was made one by an admin |
| `ModerationEffects.GrantedIff` | r2/r2/controllers/api.py:979-1091 | relation by relation, which requests are granted and what they change; a moderator added by anybody but an admin is invited and no more |
| `ModerationEffects.BanIsLogged` | r2/r2/controllers/api.py:1109-1162 | the entry of a ban call agrees with the schedule, and nothing is logged exactly if nothing changes |
| `ModerationEffects.LogGrowsIff` | r2/r2/controllers/api.py:871-1162 | apart from bans and from contributors who leave, an event writes to the log if and only if it changes a relation |
| `ModerationEffects.PendingIff` | r2/r2/controllers/api.py:872-1140 | after any run an unban is pending if and only if an accepted ban call with a duration scheduled it and no later event made the ban permanent or ended it |
| `ModerationEffects.UnfriendUndoesFriend` | r2/r2/controllers/api.py:862-1162 | removing somebody newly added restores relations, schedule and mute index, and leaves the two log entries |
| `CommentDelete.InvAlways` | r2/r2/controllers/api.py:1430-1457 | count, owed decrements, lock wins and request positions agree in every interleaving |
| `CommentDelete.CountDropsByOneIffLockNeverExpires` | r2/r2/controllers/api.py:1430-1457 | once all requests are over the count has dropped by the number of lock entries won; it is one if and only if the last attempt came before the first entry expired |
| `CommentDelete.AttemptsAreLoadsInTime` | r2/r2/controllers/api.py:1430-1456 | exactly the requests that loaded the comment before its deletion try the lock |
| `CommentDelete.TwoDecrements` | r2/r2/controllers/api.py:1456-1457 | a run in which two requests delete one comment and the count drops by two |
| `CommentDelete.AtMostOneDecrementPerLockPeriod` | r2/r2/controllers/api.py:1452-1457 | before any entry expires at most one decrement has happened |
| `GoldPrices.RoutesAgreeIff` | r2/r2/controllers/ipn.py:227-242 | days recomputed from months equal the days sold for every amount if and only if a year costs at most twelve months |
| `GoldPrices.AssertionHoldsIff` | r2/r2/controllers/ipn.py:1322-1329 | the assertion never fails if and only if a year costs at most thirteen months |
| `GoldPrices.PayingMoreNeverLosesIff` | r2/r2/controllers/ipn.py:235-242 | days never decrease as pennies grow if and only if a year costs at most twelve months |
| `GoldPrices.WhatPenniesBuy` | r2/r2/controllers/ipn.py:235-242 | what n year prices, and n month prices below a year, buy, whatever is paid on top |
| `GoldPrices.WhatMonthsAreWorth` | r2/r2/controllers/ipn.py:1322-1329 | the days of every number of months, and which numbers are not accepted |
| `GoldPrices.CredditsLeftAfterReversal` | r2/r2/controllers/ipn.py:1351-1373 | reversing fewer than twelve months of creddits restores the balance; y years leave ceil(6y/31) behind |
| `GoldSecret.SplitOfSecret` | r2/r2/controllers/ipn.py:827-831 | the pieces a printed secret falls into, for any recipient and code |
| `GoldSecret.BuyerSecretRoundTrip` | r2/r2/controllers/ipn.py:1357-1359 | the gold type of a secret is always read back |
| `GoldSecret.GiftSecretRoundTripIff` | r2/r2/controllers/ipn.py:1361-1363 | a gift's recipient and code are read back if and only if neither contains a dash, and otherwise unpacking fails |
| `GoldWebhook.GoldStore.CompleteGoldPurchase` | r2/r2/controllers/ipn.py:791-867 | the whole new state for each gold type, when it raises, and what it has changed by then |
| `GoldWebhook.GoldStore.ReverseGoldPurchase` | r2/r2/controllers/ipn.py:1343-1380 | the whole new state, read from the row alone, and when it raises |
| `GoldWebhook.GoldStore.ProcessWebhook` | r2/r2/controllers/ipn.py:718-775 | which operation each event leads to, and its whole effect |
| `GoldCases.SuccessIsApplied` | r2/r2/controllers/ipn.py:722-867 | a success for a transaction without a row credits exactly the beneficiary and leaves the row in full if and only if the purchase is direct or its blob is there |
| `GoldCases.ReversalTakesBackIff` | r2/r2/controllers/ipn.py:734-775 | a refund of a processed row of any gold type, or its cancellation, takes back exactly the days or the creddits they stand for if and only if the row can be read |
| `GoldCases.OthersChangeNothing` | r2/r2/controllers/ipn.py:734-775 | every other delivery leaves the tables alone |
| `GoldCases.CodeIsSold` | r2/r2/controllers/ipn.py:816-821 | a paid gift code gets an unclaimed row with its days and changes no account |
| `GoldCases.RowExistsIff` | r2/r2/controllers/ipn.py:722-749 | after any deliveries a transaction has a row if and only if some success for it came direct or with its blob |
| `GoldLedger.NewRowIsReadable` | r2/r2/controllers/ipn.py:827-865 | the row a purchase leaves either tells the reversal exactly what was paid to whom or cannot be read |
| `GoldLedger.InvAlways` | r2/r2/controllers/ipn.py:718-775 | after any deliveries the row of a transaction agrees with how often it was completed and reversed |
| `GoldLedger.NetFollowsTheCounts` | r2/r2/controllers/ipn.py:791-867 | a transaction has moved its days or creddits once per completion less once per reversal, for its beneficiary only, whatever other transactions do |
| `GoldLedger.ReversedAtMostOnce` | r2/r2/controllers/ipn.py:767-775 | without cancellations a transaction is reversed at most once, exactly when its row says so |
| `GoldLedger.BlobPurchaseCreditsExactlyOnce` | r2/r2/controllers/ipn.py:718-775 | with duplicated, reordered and late deliveries the beneficiary has exactly the days bought while the row is processed and none otherwise |
| `GoldLedger.CompletionsCountLateSuccesses` | r2/r2/controllers/ipn.py:743-749 | an invoice purchase is applied more than once if and only if a success arrives for a reversed row |
| `GoldLedger.DirectPurchaseExactIffAppliedOnce` | r2/r2/controllers/ipn.py:743-749 | an invoice purchase agrees with its row if and only if no success arrives after the refund |
| `GoldLedger.SuccessAfterRefundPaysAgain` | r2/r2/controllers/ipn.py:743-749 | success, refund, success of an invoice is a run that disagrees |
| `GoldLedger.CredditsAfterRefund` | r2/r2/controllers/ipn.py:1339-1373 | the creddits that a bought and refunded purchase leaves, after any deliveries |
| `GoldLedger.GiftRefundWorksIff` | r2/r2/controllers/ipn.py:1356-1363 | the refund of a delivered gift is carried out if and only if neither name nor code contains a dash; otherwise it raises and changes nothing |
| `PaymentTheorems.BlobInvAlways` | r2/r2/controllers/ipn.py:97-121 | without stale writes each blob that is held by a request is locked, and held by one request only |
| `PaymentTheorems.CleanStepStatus` | r2/r2/controllers/ipn.py:97-121 | a status moves only from initialized to locked by the hand-out and from locked to processed by the holder |
| `PaymentTheorems.HandedOutAtMostOnce` | r2/r2/controllers/ipn.py:97-108 | in every interleaving without stale writes a blob is handed out once, or not at all while it is initialized |
| `PaymentTheorems.HandOutsAreBoundedByReopenings` | r2/r2/controllers/ipn.py:97-121 | with stale writes, hand-outs exceed one by at most the number of re-openings |
| `PaymentReopenings.UntouchedUntilHandedOut` | r2/r2/controllers/ipn.py:97-121 | until its first hand-out a blob stays initialized, nobody holds it, and nothing re-opens it |
| `PaymentReopenings.HandedOutTwiceIff` | r2/r2/controllers/ipn.py:97-121 | in every interleaving a blob is handed out more than once if and only if some step hands it out after it was re-opened |
| `PaymentTheorems.ReopeningIsStaleUpdate` | r2/r2/controllers/ipn.py:111-121 | the only step that makes a blob available again is the stale write of an initialized copy |
| `PaymentTheorems.SpendDeliversAndDeducts` | r2/r2/controllers/ipn.py:407-437 | in every interleaving a spend that went through paid for a blob of its own user, gave 31 days per month to the recipient of a gift or else to the spender and nobody else any, and took its months plus what its commit overwrote from its user and nobody else; a failed one took nothing, and gave nothing unless the exception came after the delivery |
| `PaymentDeliveries.SpendRefusedIff` | r2/r2/controllers/ipn.py:370-410 | at each point, exactly when a spend is refused |
| `PaymentDeliveries.IpnDelivers` | r2/r2/controllers/ipn.py:563-645 | in every interleaving a notice gives its days or its creddits exactly to the account its blob names for that gold type, and nothing before |
| `PaymentDeliveries.BlobWasFound` | r2/r2/controllers/ipn.py:97-121 | in every interleaving a request works on the blob found under its own token, unchanged but for its status; an update only on a blob of its user |
| `PaymentDeliveries.BlobWrites` | r2/r2/controllers/ipn.py:97-121 | the whole cache after each statement |
| `PaymentDeliveries.LocksAlwaysHeld` | r2/r2/controllers/ipn.py:407-437 | every creddit lock belongs to a spend of that user that is inside it |
| `PaymentDeliveries.WaitsIff` | r2/r2/controllers/ipn.py:407 | a request that is not over can go on, unless it waits for another spend of the same user |
| `PaymentTheorems.LockInvAlways` | r2/r2/controllers/ipn.py:407-437 | the creddit lock of a user is held by the one spend inside, and a reloaded copy lags by what was bought less what was refunded since |
| `PaymentTheorems.ReloadedCommitIsExactIffNetUnchanged` | r2/r2/controllers/ipn.py:435-437 | the commit of a spend that reloaded the account costs exactly its months if and only if as many creddits were refunded as were bought since the reload |
| `PaymentBalances.CopyIsStored` | r2/r2/controllers/ipn.py:407-437 | the copy that is checked and committed is the balance stored at the load, or at the delivery if that reloads |
| `PaymentBalances.CommitIsExactIffUnchanged` | r2/r2/controllers/ipn.py:435-437 | every commit lowers the balance by its months plus the change since its copy was taken, so it is exact if and only if that change is zero |
| `PaymentBalances.NeverNegativeIff` | r2/r2/controllers/ipn.py:407-437 | over every run without initial debts: no balance is negative at any time if and only if no spend commits that found less than its months when it took its copy, and no refund finds less than its months stored |
| `PaymentBalances.OverdraftNeedsAnotherDebit` | r2/r2/controllers/ipn.py:407-437 | a spend that found less than its months found it when it reloaded the account for its delivery, after a refund or another commit for the same user since it loaded the account |
| `PaymentBalances.SerialSpendsNeverOverdraw` | r2/r2/controllers/ipn.py:407-437 | balances stay non-negative in every interleaving in which nothing else is taken from an account while a spend is on its way to its delivery, and no refund exceeds what is stored |
| `PaymentRaces.ConcurrentSpends` | r2/r2/controllers/ipn.py:407-437 | runs of two spends of five months from a balance of five, for gold and for codes: they end at minus five if the delivery reloads the account, and at zero with ten months delivered if it does not |
| `PaymentRaces.RefundAfterSpend` | r2/r2/controllers/ipn.py:1339-1340 | five creddits spent and then refunded leave minus five |
| `PaymentRaces.StaleEditHandsOutTwice` | r2/r2/controllers/ipn.py:111-121 | a run in which a blob edit lets one payment be honoured twice |
| `PaypalRenewal.InvAlways` | r2/r2/controllers/ipn.py:500-519 | the ledger row of a transaction names the one delivery that may credit it |
| `PaypalRenewal.CreditedAtMostOnce` | r2/r2/controllers/ipn.py:500-519 | duplicate notices credit a transaction at most once in every interleaving |
| `PaypalRenewal.CreditedExactlyOnce` | r2/r2/controllers/ipn.py:500-519 | once all deliveries are over a processed transaction is credited exactly once, with the days of the delivery that inserted its row, if and only if that delivery did not die |
| `DomainMiddleware.Call` | r2/r2/config/middleware.py:159-230 | the answer and the new environment for every host and settings, as functions of the old environment |
| `DomainMiddleware.ScanLabels` | r2/r2/config/middleware.py:184-208 | the loop that removes by value leaves exactly the labels that are not subreddits, and finds the last subreddit, extension and language and the prefix parts |
| `DomainMiddleware.RemovalAmongKept` | r2/r2/config/middleware.py:206-208 | removing by value takes out the label being scanned and never an earlier one, even with repeated labels |
| `DomainMiddleware.KeptExactly` | r2/r2/config/middleware.py:184-208 | a label is kept if and only if it was there and is not a subreddit |
| `DomainAnswers.OtherHosts` | r2/r2/config/middleware.py:170-180 | local and media hosts are passed on untouched, foreign ones with their name noted |
| `DomainAnswers.HostNameOf` | r2/r2/config/middleware.py:161-162 | case and port of the host do not matter, and without a host the request is local |
| `DomainAnswers.RedirectedIff` | r2/r2/config/middleware.py:186-216 | a request is redirected if and only if its last label that is neither reserved nor an extension nor a language is not empty, and there is a path |
| `DomainAnswers.RedirectLeadsTo` | r2/r2/config/middleware.py:216-228 | the location falls at its slashes into the kept host, the abbreviation, that label, and the pieces of the path |
| `DomainAnswers.EnvironmentOf` | r2/r2/config/middleware.py:184-213 | the last extension and the last language are noted, and the prefix reads back as the language and the reserved labels in order |
| `DomainAnswers.LanguageIff` | r2/r2/lib/utils/utils.py:195-199 | a language is one or two pieces of two word characters |
| `DomainRedirect.RedirectsAgainIff` | r2/r2/config/middleware.py:215-228 | the redirected host is redirected again if and only if no label was kept and the configured prefix is itself taken for a subreddit |
| `DomainRedirect.MisreadIff` | r2/r2/config/middleware.py:218-220 | which prefixes these are, in terms of the prefix's own labels |
| `DomainRedirect.LabelPrefixIsNotMisread` | r2/r2/config/middleware.py:187-205 | a prefix that is one reserved, extension or language label is not one of them |
| `DomainRedirect.EndlessIff` | r2/r2/config/middleware.py:215-228 | a redirect is followed by at most one more, or else by infinitely many, exactly when every label of the prefix is taken for a subreddit |
| `DomainRedirect.UnreservedPrefixLoops` | r2/r2/config/middleware.py:218-220 | with the prefix `www` and nothing reserved a subreddit host is redirected for ever |
| `DomainRedirect.LocationNamesTheHostIff` | r2/r2/config/middleware.py:222-225 | merging double slashes leaves the host of the Location header intact if and only if the host has no slash |
| `AppSetup.InvAlways` | r2/r2/config/middleware.py:440-479 | fields, lock and request positions agree in every interleaving, with exceptions anywhere |
| `AppSetup.SetupRunsOnce` | r2/r2/config/middleware.py:440-449 | controllers load and hooks register at most once, and no request leaves before both are done |
| `AppSetup.NoLockOnceSetUp` | r2/r2/config/middleware.py:443-445 | a request that starts once the setup is complete leaves without taking the lock |
| `AppSetup.CsrfCheckedIffItDidNotRaise` | r2/r2/config/middleware.py:463-472 | a request that was let in was preceded by a passed CSRF check if and only if no check raised |
| `AppSetup.FailedCsrfCheckIsSkippedNextTime` | r2/r2/config/middleware.py:463-472 | a run in which the second request is let in although the only check failed |
| `AppSetup.RequestsMoveForward` | r2/r2/config/middleware.py:440-479 | every step brings its request closer to its end and leaves the others alone |
| `AppSetup.SomeRequestCanMove` | r2/r2/config/middleware.py:447-449 | as long as a request is under way some request can move |
| `UrlDecode.DecodeInPlace` | scripts/traffic/utils.c:27-54 | the buffer is the old one with the decoded bytes written at the start of the string and nothing else changed; the result is the decoded length, or -1 on a bad escape |
| `UrlDecode.WriteByte` | scripts/traffic/utils.c:32-48 | the write pointer never passes the read pointer, and what is still to be read is intact |
| `UrlCodec.DecodeIff` | scripts/traffic/utils.c:27-54 | the decoder accepts exactly the percent-encodings of a byte string and returns that string |
| `UrlCodec.DigitsAreHex` | scripts/traffic/utils.c:34 | the digits are 0 to 9 and a to f in either case |
| `UrlCodec.RoundTrip` | scripts/traffic/utils.c:27-54 | decoding undoes encoding of every byte string, for any choice of plain bytes and either digit case |
| `UrlCodec.InPlaceRoundTrip` | scripts/traffic/utils.c:50-51 | in the buffer the encoded string is replaced by the string itself, with its terminator |
| `TrafficQuery.ParseQueryParam` | scripts/traffic/utils.c:56-92 | key, value, length, next query and the whole buffer after one parameter, for every string and for NULL |
| `TrafficQuery.CutIsReadBack` | scripts/traffic/utils.c:68-80 | what comes before and after the first separator gives the string back |
| `TrafficParams.ParseAll` | scripts/traffic/utils.c:56-92 | iterating until the query is NULL terminates and leaves in the buffer, in order, exactly the pieces between the ampersands, valueless ones included, each split at its first '=' |
| `TrafficParams.ParamsRejoin` | scripts/traffic/utils.c:56-92 | printed with '=' and '&' the parameters give the query string back |
| `TrafficVerify.TakenAreTheParams` | scripts/traffic/verify.c:50 | the loop sees exactly the parameters before the first one without a value |
| `TrafficVerify.TakenAreApart` | scripts/traffic/verify.c:50-58 | the values lie one after the other in the buffer, each with its own terminator |
| `TrafficVerify.LastIsThere` | scripts/traffic/verify.c:51-57 | the pointer that is kept is the last one with its key |
| `TrafficVerify.SelectParams` | scripts/traffic/verify.c:44-58 | id, hash and url point at the last values before the first valueless parameter; all values are terminated in place and the rest of the line is unchanged |
| `TrafficCheck.DecodingKeeps` | scripts/traffic/verify.c:63-75 | decoding one value in place leaves the other values, decoded or not, as they are |
| `TrafficCheck.DecodeParams` | scripts/traffic/verify.c:44-75 | which lines are skipped, and the decoded id and hash in the buffer for the others, as a function of the query string alone |
| `TrafficCheck.AcceptedIff` | scripts/traffic/verify.c:44-75 | a line is not skipped for its parameters if and only if the last id and the last url, if any, are encodings of something, and the last hash is one of forty bytes |
| `TrafficCheck.SplitId` | scripts/traffic/verify.c:115-125 | the id is cut at its first '-' into full name and subreddit, both terminated, and nothing else changes |
| `Ngrams.OccurrencesArePlaces` | scripts/inject_test_data.py:67-73 | counting window by window is the number of places where the string stands |
| `Ngrams.ShorterContextTotal` | scripts/inject_test_data.py:83-88 | what was counted in a longer context was counted in the shorter one at least as often |
| `MarkovText.CountGroups` | scripts/inject_test_data.py:84-88 | after the inner loop the counter of each context equals its occurrences in all samples including the new one |
| `MarkovText.CountNext` | scripts/inject_test_data.py:85-88 | one increment accounts for one more character of the sample |
| `MarkovText.TextGenerator.AddSample` | scripts/inject_test_data.py:75-88 | all counters of all orders, the starts and the lengths are the plain counts over the accepted samples; short samples change nothing |
| `MarkovText.TextGenerator.NextChar` | scripts/inject_test_data.py:100-109 | the next character has followed the longest observed suffix, or is any letter when none was observed |
| `MarkovText.TextGenerator.Generate` | scripts/inject_test_data.py:90-111 | the text starts like some sample, has that sample's length and continues as allowed; all counts are unchanged; drawing from no samples raises |
| `MarkovTheorems.LongestIff` | scripts/inject_test_data.py:100-107 | of the suffixes the models cover exactly those up to the length used have been observed |
| `MarkovTheorems.FallbackIff` | scripts/inject_test_data.py:108-109 | a random letter is used if and only if the last character was never followed by anything |
| `MarkovTheorems.DeadEndIff` | scripts/inject_test_data.py:108-109 | such a character occurs only at the very end of samples |
| `MarkovTheorems.NeighboursAreSampled` | scripts/inject_test_data.py:90-111 | two neighbours in a generated text are neighbours in a sample, except behind such a character |
| `MarkovTheorems.UniqueContextsReproduce` | scripts/inject_test_data.py:90-111 | when every full-length context has one continuation, the texts that can be generated are exactly the samples |

## Left out

- scripts/hashdist.py: option parsing, `parse_size`, logging, the single-process `exec` and the exit when both `-f` and `-r` are in force (which the default of `-f` makes the case for every `-r`); the key expression is a function.
- HashDist: a child is a finite list of reads and prints that reads on until it meets the end of its input; a child that ends earlier, closing its stdin failing, and reads failing are not modelled. Pipes are measured in lines, including what a reader has buffered, and a write fails exactly when not all characters of the line were accepted.
- HashDistRest.CompleteIff: stdout is buffered, so a line that was accepted by a write can still be lost at a later flush or at exit, without any write failing; what the theorems call printed is what was accepted.
- r2/r2/controllers/api.py: everything around the modelled handlers (permissions, quotas, timeouts and form errors are one flag of the request; rendering, messages, email and notifications), permission editing, `friend` and `enemy` relations, which are not logged, and campaign, search and admin pages.
- Moderation: the log entry for an accepted invite has no target of its own; its target here is the accepting user. A new subreddit starts with its creator as moderator only, although the creator also becomes a contributor, without an entry, when contributors are visible.
- Moderation.Subreddit.ScheduleUnban: what is pending is the index by user; an earlier queued job that was not unscheduled first would stay queued. The handlers do unschedule it.
- Moderation.Subreddit.UnbanJob: an entry of the unban schedule ends when the job has handled it; the some ten minutes during which the index still shows it are not modelled.
- r2/r2/controllers/ipn.py: prices are whole pennies and currency parsing is not modelled; messages, emails, statistics, `check_txn_type` and `check_payment_status`, Stripe, Coinbase and PayPal calls, `send_gift`'s own rows, `claim_gold`, cancelling subscriptions, `existing_subscription`.
- GoldWebhook.GoldStore.AdjustDays: gold days are a ledger of days added and taken away; the expiry date, which restarts from the present when it has passed, is not modelled.
- GoldWebhook.GoldStore.CompleteGoldPurchase: exceptions inside a gift's delivery to an existing recipient, other than for a buyer without an account, are not modelled.
- GoldLedger.BlobPurchaseCreditsExactlyOnce: deliveries are atomic and cancellations are outside the claim, because the code reverses on them without looking at the status.
- PaymentBalances.SerialSpendsNeverOverdraw: that nothing is taken while a spend is on its way is sufficient and not necessary; `PaymentBalances.NeverNegativeIff` has the exact condition.
- PaymentBalances.NeverNegativeIff: other writers of the creddit balance are not part of this model: gilding through the API (`r2/r2/controllers/apiv1/gold.py:45-75`), renewal from creddits (`r2/r2/models/admintools.py:383-391`), claiming a code as creddits (`r2/r2/controllers/api.py:3722`) and gifts by administrators (`r2/r2/controllers/api.py:4589`).
- Payments: blobs do not expire, locks always come free, and whether delivering the gold reloads the spender's account, which depends on the cache, is a field of the request, like an exception before or after the delivery. An insert that violates the unique key in `finish`, and a notice for a buyer without an account, are not modelled.
- AppSetup: `test_mode` and `running_as_script`, for which the code skips these steps.
- DomainMiddleware.Call: the port is not recorded in the environment, and only the keys that the middleware uses are modelled.
- UrlDecode.DecodeInPlace: `sscanf` also accepts a sign, white space or a single digit after '%'; strings in which a '%' is followed by such characters are excluded, while every escape that it is sure to refuse is modelled.
- UrlCodec.DecodeIff: the encodings are those of two digits per escape; the lenient ones that `sscanf` accepts as well are left out for the same reason.
- TrafficCheck.DecodeParams: values with such lenient escapes are excluded.
- scripts/traffic/utils.c: `split_fields`, the split of a log line at tabs; scripts/traffic/verify.c: the HMAC comparison, the click branch and the output.
- MarkovText.TextGenerator.Generate: random choice is any choice of positive weight; the probabilities are not modelled.
