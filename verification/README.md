# SparkFund ledger and status logic in Dafny

SparkFund is a crowdfunding web application. Users hold a wallet in euros and
create *sparks* (campaigns with a goal amount). They donate from their wallet
to ACTIVE sparks and can file *user signals* (support tickets) that an
administrator resolves. This project models the service layer that carries
the application's rules. Persistence, HTTP and e-mail are stripped away:

- **WalletService** (`wallet_service.dfy`): the initial wallet, the guarded
  debit `reduceAmount`, the credits `addFunds` and
  `addFundsWithoutUserValidation`, and the count of distinct sparks a wallet
  donated to.
- **SparkService** (`spark_service.dfy`):
  - the create and update guards, and `increaseCurrentAmount`;
  - `cancelSparkAndReturnDonations`, with its refund loop;
  - `completeSpark`;
  - the All Sparks list filters by status, category and ownership.
- **DonationService** (`donation_service.dfy`):
  - `addDonationToSpark`: validate, debit the wallet, credit the spark and
    record the donation;
  - the statistics of `getTotalDonationsInfo`: per-owner totals, the grand
    total rounded half up, and the top-three leaderboard.
- **CompleteSparkScheduler** (`scheduler.dfy`): one tick of the sweep that
  completes every ACTIVE spark whose raised amount has reached its goal. The
  tick stops early when a completion e-mail call throws.
- **UserSignalService** (`user_signal_service.dfy`):
  - sending a signal, and the PENDING → RESOLVED close;
  - deletion, allowed only when RESOLVED;
  - the two list filters, and the action-type check.
- **UserService** (`user_service.dfy`): registration with a unique username
  and email (a USER/ACTIVE account and exactly one new wallet), and the login
  lookup `loadUserByUsername`.
- **CommonUtils** (`common_utils.dfy`): the null and emptiness helpers.

Shared definitions:

- `common.dfy`: `Option`, `Result`, `Outcome` and `Saved`, and the exception
  kinds. `Saved` is the result of a call without a transaction: the state it
  saved, together with how it ended. The kinds are AccessDenied, Domain
  (DomainException), NotFound (ResourceNotFoundException), NullReference (a
  Java NullPointerException), Constraint (the database rejects a row) and
  Remote (a failing call to the e-mail service).
- `model.dfy`: the entities and the whole store. `State` keeps users, wallets,
  sparks and signals in maps keyed by id, plus the donation log.
- `collections.dfy`: generic sequence and map tools. It holds an
  order-preserving filter, sums over a map, and the stable descending sort
  that `sorted(comparing(key, reverseOrder()))` performs.

Modelling choices:

- Amounts are `int` euro cents (`Money`). The donation minimum of 1 from
  `DonationRequest` is `OneEuro` = 100.
- A nullable Java field is an `Option`.
- An exception is an `Err`, and no state is returned with it. This is the
  effect of `@Transactional` rollback in `addDonationToSpark`, `register` and
  the other transactional methods. Most service methods without a transaction
  make at most one save, and only at the very end.
- Two non-transactional calls can throw after saving:
  - `completeSpark` saves the spark and then calls the e-mail service.
  - `cancelSparkAndReturnDonations`, described next.
- The scheduler tick takes, as an input, the set of sparks whose completion
  e-mail call throws. The first such call ends the tick: the sparks completed
  so far stay completed, and the rest of the queue stays eligible for the
  next tick.
- `cancelSparkAndReturnDonations` has no transaction either, and
  its refund loop saves each credited wallet at once. It therefore returns a
  `Saved` value: the state saved when it returns or throws, together with the
  outcome. When the loop throws, the credits already saved stay and the spark
  keeps its status and amount. A retry credits those wallets a second time.
- The donation log lists donations newest first. `Spark.getDonations()` and
  `Wallet.getDonations()` are filters of it (`DonationsTo`, `DonationsFrom`),
  so they have the `@OrderBy("createdOn DESC")` order. That order decides
  which donations the refund loop has credited when it stops.
- A donation's wallet is a foreign key, so in the application it is null or
  an existing wallet. The store here is a map, so `Refund` and `Reached` also
  handle a wallet id that is not in it (NotFound). That branch exists only
  because of the map: no stored donation reaches it in the application.
- A spark's `currentAmount` is its own field. It is not the sum of its
  donations: a spark can be created with a starting amount.
- The order of the repository queries (`createdOn DESC`) is an input
  sequence, passed in already ordered.
- Fresh UUIDs and the password encoder are parameters.

The refund, donation and registration lemmas state money conservation with
`TotalBalance` and `TotalRaised`, the sums of balances and raised amounts over
the stores. `LedgerSound` is the state invariant that these operations
preserve: no wallet is overdrawn, and every recorded donation is at least
one euro.

## Model

| member | source | states |
|---|---|---|
| CommonUtils.AreAllNull | SparkFund/src/main/java/app/util/CommonUtils.java:12-14 | true exactly when every argument is null (vacuously true for none) |
| CommonUtils.IsZeroAmount | SparkFund/src/main/java/app/util/CommonUtils.java:16-18 | true exactly when the amount, null read as zero (`OrZero`, the reading every service uses), is zero |
| CommonUtils.IsEmpty | SparkFund/src/main/java/app/util/CommonUtils.java:20-22 | true exactly for null and the empty string |
| CommonUtils.IsNotEmpty | SparkFund/src/main/java/app/util/CommonUtils.java:24-26 | true exactly for a non-null string of positive length |
| CommonUtils.NotEmptyIsNegationOfEmpty | SparkFund/src/main/java/app/util/CommonUtils.java:20-26 | isNotEmpty is the exact negation of isEmpty for every input |
| WalletService.CreateWallet | SparkFund/src/main/java/app/wallet/service/WalletService.java:33-41 | the new wallet is owned by the user, holds 0 and is in EUR |
| WalletService.ReduceAmount | SparkFund/src/main/java/app/wallet/service/WalletService.java:96-105 | succeeds iff the amount is at most the balance; then the balance drops by exactly the amount, stays non-negative, and nothing else changes; otherwise a DomainException (a null balance is a null dereference) |
| WalletService.ExactBalanceDebit | SparkFund/src/main/java/app/wallet/service/WalletService.java:98-101 | debiting the whole balance succeeds and leaves exactly zero |
| WalletService.AddFundsWithoutUserValidation | SparkFund/src/main/java/app/wallet/service/WalletService.java:115-119 | the balance (null read as zero) grows by exactly the amount; owner, id and currency are kept |
| WalletService.AddFunds | SparkFund/src/main/java/app/wallet/service/WalletService.java:107-113 | for an ACTIVE user it is the unvalidated credit; for any other status AccessDenied and no change |
| WalletService.DebitThenCreditRestores | SparkFund/src/main/java/app/wallet/service/WalletService.java:96-119 | a successful debit followed by a credit of the same amount gives back the original wallet |
| WalletService.TotalSparkCount | SparkFund/src/main/java/app/wallet/service/WalletService.java:76-85 | the number of distinct sparks among the wallet's donations, 0 when there are none, never more than the number of donations |
| SparkService.CreateSpark | SparkFund/src/main/java/app/spark/service/SparkService.java:39-57 | a non-ACTIVE user gets AccessDenied; otherwise the spark is the user's, shows the request's fields and status, and starts at the requested amount or 0 |
| SparkService.UpdateSpark | SparkFund/src/main/java/app/spark/service/SparkService.java:60-76 | AccessDenied unless both the user and the spark are ACTIVE (user checked first); on success only the editable fields change, while id, creator, currentAmount and status are kept |
| SparkService.EditAfterCreate | SparkFund/src/main/java/app/spark/service/SparkService.java:39-76 | editing a freshly created ACTIVE spark equals creating it from the edited form with the original amount and status; re-submitting the creation form as an edit changes nothing |
| SparkService.UpdateSparkIdempotent | SparkFund/src/main/java/app/spark/service/SparkService.java:67-73 | repeating the same edit on the edited spark yields the same spark |
| SparkService.IncreaseCurrentAmount | SparkFund/src/main/java/app/spark/service/SparkService.java:126-131 | the raised amount (null read as zero) grows by exactly the amount, uncapped by the goal; nothing else changes |
| SparkService.CompleteSpark | SparkFund/src/main/java/app/spark/service/SparkService.java:163-168 | the status becomes COMPLETED and every other field, amounts included, is kept |
| SparkService.Reached | SparkFund/src/main/java/app/spark/service/SparkService.java:147-149 | the number of donations the loop gets through: every one before it has an existing wallet, and the one at it (if any) has a null or unknown wallet |
| SparkService.Refund | SparkFund/src/main/java/app/spark/service/SparkService.java:147-151 | the refund loop keeps the set of wallets, including when it throws part-way |
| SparkService.RefundSucceedsIff | SparkFund/src/main/java/app/spark/service/SparkService.java:147-150 | the loop completes exactly when every donation's wallet exists; otherwise it throws at the first bad donation, a null dereference for a null wallet |
| SparkService.RefundCreditsEachWallet | SparkFund/src/main/java/app/spark/service/SparkService.java:147-149 | every wallet is credited with exactly the sum of its own donations among those the loop got through, and keeps its owner and currency |
| SparkService.RefundConservesMoney | SparkFund/src/main/java/app/spark/service/SparkService.java:147-149 | the wallets' total grows by exactly the sum of the donations the loop got through |
| SparkService.CancelSparkAndReturnDonations | SparkFund/src/main/java/app/spark/service/SparkService.java:144-157 | no other spark changes; when refunds are due the wallets and outcome are the refund loop's, saved credits kept on failure; on success the spark is CANCELLED, its amount 0 when refunds were due and untouched otherwise; on failure the spark is left as it was |
| SparkService.CancelRefundsEachDonor | SparkFund/src/main/java/app/spark/service/SparkService.java:145-153 | when refunds are due, cancellation succeeds iff every donation has an existing wallet; each wallet gets back exactly its own donations the loop reached, all of them on success |
| SparkService.CancelRefundsDonatedMoney | SparkFund/src/main/java/app/spark/service/SparkService.java:145-153 | a successful cancellation with refunds returns to the wallets exactly the sum of the spark's donations |
| SparkService.CancelKeepsLedgerSound | SparkFund/src/main/java/app/spark/service/SparkService.java:144-157 | refunds never overdraw a wallet: a sound ledger stays sound, whether or not the loop completes |
| SparkService.CancelRetryRefundsAgain | SparkFund/src/main/java/app/spark/service/SparkService.java:144-157 | after a failed cancellation a retry fails the same way and credits every wallet again with what the first attempt gave it |
| SparkService.CancelLeavesFundedIff | SparkFund/src/main/java/app/spark/service/SparkService.java:144-157 | after a completed cancellation the spark still counts as funded iff it had no donations and a positive starting amount |
| SparkService.FilterSparksByOwner | SparkFund/src/main/java/app/spark/service/SparkService.java:113-124 | an order-preserving sublist: MY_SPARKS keeps the user's sparks; SPARKS_I_DONATE_TO keeps sparks with a donation whose wallet is null or the user's; any other value keeps the list unchanged |
| SparkService.GetAllSparks | SparkFund/src/main/java/app/spark/service/SparkService.java:88-102 | an order-preserving sublist; with all filters null exactly the ACTIVE sparks; otherwise a spark is listed iff its status name matches, its category matches unless ALL, and the ownership filter keeps it unless ALL_SPARKS |
| SparkService.SparksWithDonations | SparkFund/src/main/java/app/spark/service/SparkService.java:182-184 | exactly the sparks whose raised amount, null read as zero, is above zero |
| DonationService.ValidateDonation | SparkFund/src/main/java/app/donation/service/DonationService.java:134-140 | passes iff user and spark are both ACTIVE; an inactive user is rejected before the spark is looked at; every rejection is AccessDenied |
| DonationService.AddDonationToSpark | SparkFund/src/main/java/app/donation/service/DonationService.java:44-58 | succeeds iff both are ACTIVE, the user's wallet covers the amount and the message is not null; an inactive user or spark gives AccessDenied, insufficient funds a DomainException, and a null message a rejected insert that rolls everything back; on success the wallet drops and the spark rises by the amount, one donation is recorded as the newest, and nothing else changes |
| DonationService.DonationConservesMoney | SparkFund/src/main/java/app/donation/service/DonationService.java:48-56 | total wallet money plus total raised money is unchanged by a donation; the wallets lose exactly the amount |
| DonationService.DonationRecordedOnce | SparkFund/src/main/java/app/donation/service/DonationService.java:49-57 | the spark gains exactly one donation record, and its donations' sum grows by the amount |
| DonationService.DonationFundsSpark | SparkFund/src/main/java/app/donation/service/DonationService.java:44-58 | a donation adds its spark to the sparks with donations and keeps every spark already there |
| DonationService.DonationKeepsLedgerSound | SparkFund/src/main/java/app/donation/service/DonationService.java:48-57 | a donation never overdraws and records at least one euro: a sound ledger stays sound |
| DonationService.MergeTotals | SparkFund/src/main/java/app/donation/service/DonationService.java:80-86 | the merged map gives every username the sum of all its wallets' donations, and 0 for absent names |
| DonationService.TopDonorsQualify | SparkFund/src/main/java/app/donation/service/DonationService.java:89-96 | the leaderboard holds at most three wallets from the list, each with an owner total of at least one euro |
| DonationService.TopDonorsOrdered | SparkFund/src/main/java/app/donation/service/DonationService.java:93-95 | the leaderboard is in non-increasing order of owner total |
| DonationService.TopDonorsNoneBetterLeftOut | SparkFund/src/main/java/app/donation/service/DonationService.java:89-96 | an eligible wallet is left out only when all three places are filled by owners with totals at least as large |
| DonationService.DonorRankingStable | SparkFund/src/main/java/app/donation/service/DonationService.java:93-94 | wallets with equal owner totals keep their wallet-list order |
| Collections.SortDescStable | SparkFund/src/main/java/app/donation/service/DonationService.java:93-94 | the descending sort keeps, for every key, the input order of the elements with that key |
| Collections.TakeOfSortedDesc | SparkFund/src/main/java/app/donation/service/DonationService.java:95 | the first n of a descending list are descending, and nothing left out has a larger key |
| DonationService.WalletSumIsOwnerTotal | SparkFund/src/main/java/app/donation/service/DonationService.java:128-132 | when no two wallets share an owner, a wallet's own donation sum equals its owner's total in the merged map |
| DonationService.RankShowsOwnerTotal | SparkFund/src/main/java/app/donation/service/DonationService.java:100-110 | with distinct owners, each leaderboard place shows exactly the owner total it was ranked by |
| DonationService.RankOf | SparkFund/src/main/java/app/donation/service/DonationService.java:100-110 | a filled place carries the wallet owner's picture, username and the wallet's donation sum; an empty place has null picture, null name and ZERO |
| DonationService.RoundHalfUp | SparkFund/src/main/java/app/donation/service/DonationService.java:114 | the nearest whole euro to the cent amount, halves rounded away from zero |
| DonationService.GetTotalDonationsInfo | SparkFund/src/main/java/app/donation/service/DonationService.java:73-126 | the grand total is rounded half up, the funded count is the sparks raised above zero, and the three places are read off the leaderboard built from the merged totals |
| CompleteSparkScheduler.TickLength | SparkFund/src/main/java/app/scheduler/CompleteSparkScheduler.java:28-30 | how many queued sparks a tick gets through: every e-mail call before the last succeeds, and when the queue is not used up the last one threw |
| CompleteSparkScheduler.CompleteSparks | SparkFund/src/main/java/app/scheduler/CompleteSparkScheduler.java:23-31 | the tick completes exactly the queue prefix up to and including the first spark whose e-mail call throws, and changes nothing else; it ends normally iff no queued call throws, and then the store equals the reference sweep with completeSpark called exactly once per eligible spark; afterwards exactly the queued sparks not reached are still eligible; an empty query completes nothing |
| CompleteSparkScheduler.SweepChangesExactlyEligible | SparkFund/src/main/java/app/spark/repostiroty/SparkRepository.java:19-20 | the reference sweep `Swept`, which a tick that ends normally produces, changes a spark iff it is ACTIVE with currentAmount at least its goal, and never changes raised or goal amounts |
| CompleteSparkScheduler.SweepIdempotent | SparkFund/src/main/java/app/spark/repostiroty/SparkRepository.java:19-20 | after the reference sweep `Swept` nothing is eligible, so sweeping again changes nothing |
| CompleteSparkScheduler.FailedTickThenRetry | SparkFund/src/main/java/app/scheduler/CompleteSparkScheduler.java:22-31 | after a tick that stopped early, the next tick's query returns exactly the unreached queued sparks, and sweeping them gives the reference sweep of the original store: a failed tick delays completions but loses none |
| UserSignalService.SendSignal | SparkFund/src/main/java/app/usersignal/service/UserSignalService.java:33-42 | adds one PENDING signal by the user with the request's title and message; existing signals are kept |
| UserSignalService.CloseSignal | SparkFund/src/main/java/app/usersignal/service/UserSignalService.java:45-58 | NotFound for an unknown id; otherwise the signal becomes RESOLVED with the admin response and nothing else changes |
| UserSignalService.DeleteSignal | SparkFund/src/main/java/app/usersignal/service/UserSignalService.java:82-90 | NotFound for an unknown id; AccessDenied unless RESOLVED; otherwise exactly that signal is removed |
| UserSignalService.SignalLifecycle | SparkFund/src/main/java/app/usersignal/service/UserSignalService.java:33-90 | a freshly sent signal cannot be deleted; after closing it, deletion restores the store as it was before sending |
| UserSignalService.GetAllSignals | SparkFund/src/main/java/app/usersignal/service/UserSignalService.java:101-109 | an order-preserving sublist without the user's own signals, restricted to the status unless ALL (a null status lists nothing) |
| UserSignalService.GetUserSignals | SparkFund/src/main/java/app/usersignal/service/UserSignalService.java:119-125 | ALL returns the input unchanged; otherwise the order-preserving sublist with that status |
| UserSignalService.StatusFiltersPartition | SparkFund/src/main/java/app/usersignal/service/UserSignalService.java:119-125 | the PENDING and RESOLVED lists together account for every signal exactly once |
| UserSignalService.ValidateActionType | SparkFund/src/main/java/app/usersignal/service/UserSignalService.java:127-132 | accepts exactly send, close and delete; any other string is a DomainException, and null is a null dereference |
| UserService.Register | SparkFund/src/main/java/app/user/service/UserService.java:38-68 | a taken username, then a taken email, is a DomainException; otherwise exactly one USER/ACTIVE user with the request's username, email and encoded password, and one zero-balance wallet it owns, are added |
| UserService.RegisterKeepsAccountsUnique | SparkFund/src/main/java/app/user/service/UserService.java:39-48 | registration keeps usernames and emails unique |
| UserService.RegisterCreatesOneWallet | SparkFund/src/main/java/app/user/service/UserService.java:50-51 | the new user owns exactly one wallet, the new one, and every wallet still has a known owner |
| UserService.RegisterCreatesNoMoney | SparkFund/src/main/java/app/user/service/UserService.java:50-51 | total wallet money is unchanged by registration, and a sound ledger stays sound |
| UserService.LoadUserByUsername | SparkFund/src/main/java/app/user/service/UserService.java:71-79 | fails with a DomainException iff no user has that name; otherwise the stored id, password, role and status of that user |
| UserService.RegisteredUserCanLogIn | SparkFund/src/main/java/app/user/service/UserService.java:59-78 | right after registration the login lookup finds the new user with the encoded password, role USER and status ACTIVE |

## Left out

- Web layer: controllers, exception advice, MVC configuration and view names. Routing and rendering decide nothing about the ledger.
- E-mail: the completion, cancellation and donation e-mails, and the e-mail client with its resend scheduler. They are calls to an external service.
- SparkService.CompleteSpark: is the saved spark only. Its e-mail call comes after the save, and its failure is modelled in `CompleteSparkScheduler.CompleteSparks`, the only caller within the model.
- CancelSparkAndReturnDonations: does not model a failing e-mail call. The refund loop calls the e-mail client after each credit, with no guard against an exception from it. Such an exception would stop the loop just like a null wallet: the credits saved so far stay and the spark is left as it was.
- The duplicate-request aspect. It guards concurrent in-flight requests with a concurrent map and the clock; the model is sequential.
- Persistence and repositories. These are replaced by maps. A transactional method returns no state on failure; the non-transactional cancellation returns what it saved. The read-then-write race on balances under concurrency is not modelled.
- Timestamps (`createdOn`, `updatedOn`): wall-clock values. Only the order they induce is an input.
- `getTotalDonations` in WalletService. It is locale-dependent `DecimalFormat` string formatting.
- DTO mapping and bean-validation annotations. They only copy fields. The one validation rule used is the donation minimum, a precondition of `AddDonationToSpark`. The 300-character limit on a donation message is a form check and is not modelled.
- `Signal`: an unused legacy entity.
- `switchStatus`, `switchRole`, `updateUserProfile` and `getAuthenticatedUser`, which `UserServiceUTest` calls: `UserService.java` does not define them.
- Closing and deleting a signal return the refreshed signal list in the source. `CloseSignal` and `DeleteSignal` return the updated store instead; the list is `GetAllSignals` over it.
- `findAllSparksWithDonations` calls a repository query that `SparkRepository` does not declare. `SparksWithDonations` reads it as "raised amount above zero".
- A null signal id, and a null request or user passed to a service: not modelled. Ids are plain values.
- Spark ownership `spark.getCreator().equals(user)` compares entity identity. It is modelled as equality of user ids.
- `User.wallet` is the inverse side of `Wallet.owner`. `Register` sets it, as it reads after reload.
- LoadUserByUsername: requires unique usernames, which the database's unique constraint on the username column enforces (e-mails are unique too, but the lookup does not need that). Without it the lookup is not a function.
- DonationService.GetTotalDonationsInfo: takes the wallets already joined with their owner's username and picture (`WalletEntry`), which is what `findAllWallets` and lazy loading supply.
- COMPLETED and CANCELLED are not terminal. The code has no status guard on cancel or complete (SparkService.java:144, :163). The model therefore claims no terminal statuses and no monotone raised amount.
- Amounts with more than two decimal places (sub-cent `BigDecimal` values): not representable in cents.
