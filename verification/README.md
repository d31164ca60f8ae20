# nut_Meals: verified service logic

A Dafny model of the stateful business logic of the nut_Meals back end, with proofs about whole runs of it.

| file | what it models |
|---|---|
| `SlidingWindow.dfy` | the rate limiter's Lua script on one key (sorted set, TTL), and the unbounded log it must agree with |
| `SlidingWindowSafety.dfy` | bound, Retry-After, TTL slack, denied requests, over every run of a key |
| `ClockSteps.dfy` | what is left of the bound when the gateway's clock steps back |
| `RateLimiter.dfy`, `RateLimitLaws.dfy` | the limiter object over all keys, limit resolution, the 429 decision (section 4 of RFC 6585), key names; what clients are answered over whole runs |
| `CivilDate.dfy` | calendar dates, `timedelta(weeks=1)` and `relativedelta(months=1)` |
| `Subscriptions.dfy` | the subscription object, the billing sweep and the notice sweep |
| `SubscriptionRuns.dfy` | what holds over every run of one subscription, and over repeated sweeps |
| `SubscriptionLaws.dfy` | each call and sweep column by column, and where the dates come from |
| `RenewalNotices.dfy` | when a renewal date is announced before it is charged |
| `Journal.dfy`, `JournalLaws.dfy`, `BalanceLaws.dfy` | the double-entry journal, its posting service and balance query; the laws of the ledger; what each call does to each balance |
| `Coupons.dfy`, `CouponLaws.dfy`, `Invoices.dfy`, `Rounding.dfy` | discounts, usage counters, GST, half-even rounding |
| `Inventory.dfy`, `InventoryLaws.dfy`, `InventoryFlow.dfy` | stock levels, reservations, adjustments, transfers and production over one movement log |
| `StoredQuantities.dfy` | rounding of the quantity columns to thousandths |
| `Reviews.dfy`, `RatingLaws.dfy` | moderation and the cached product rating |
| `Returns.dfy`, `ReturnLaws.dfy` | the return workflow and its audit trail |
| `Carts.dfy`, `CartLaws.dfy`, `MapSums.dfy` | the cart as a map from product to quantity and price |

Objects whose columns the source updates are classes. Each method's `ensures` ties its result and the new state to a
function of the old state, and the lemmas are about that function, over every run.
The session's rollback on an error is modelled as restoring the state that was read.
Clocks, random suffixes, database keys, charge outcomes and pickup answers are parameters.

## Where the code and its documentation differ

The model follows the code. Each item names the lemmas with the exact condition under which the promise holds, or with
a concrete case in which it fails.

- The limiter's members are said to avoid collisions, but two requests of one millisecond that draw the same suffix
  share a member and are counted once. Distinct members never pass the limit; admissions are bounded over every run
  only for a limit of one (`EveryRunBoundedIff`).
- A limit of zero or less lets every request pass: the deny branch returns 0, which the gateway reads as allowed
  (`DenialAlwaysRaisedIff`).
- `now_ms` is read before the script runs, so the times of a key can go back. One millisecond back breaks the bound on
  the full window (`ClockMustNotStepBack`); what survives is the window shortened by the step (`WindowLengthBoundedIff`).
- The key joins path and client with a colon, so two IPv6 clients can share a counter: exactly when one address ends
  with a colon and the other (`ClientsCanShareIff`, `Ipv6KeysCollide`).
- Reversing a journal entry is meant to cancel it. The balance query counts POSTED entries only, the original becomes
  REVERSED and the swapped reversal stays POSTED, so the entry is taken out twice (`PostThenReverseRestoresIff`,
  `ReversedSaleOverdraws`). Trial balance and accounting equation still hold.
- Available stock is checked line by line, so a bill of materials that lists an item twice can consume reserved stock or
  drive the quantity on hand below zero (`StartBatchSafeIff`, `RepeatedLineOversells`).
- Reminders are meant to precede the next charge. A renewal date is announced exactly if the notice flag was down when
  it was set and a notice sweep finds the subscription active in the three days before (`DateAnnouncedIff`). Two calls
  can set a date that no sweep will announce (`DateAnnounceableIff`):
  - Resuming moves the date but keeps the flag, so the new date is charged unannounced when a notice had already gone
    out (`ChargedUnannounced`).
  - The start date of a new subscription is not checked, so a back-dated one is due at once and is charged unannounced
    (`BackdatedStartUnannounced`, `BackdatedChargedUnannounced`).
- The movement log and the levels are rounded to thousandths one by one, so they can part by a thousandth
  (`StoredChangeAgreesIff`, `HalfThousandthLost`); in whole thousandths they never do (`WholeRunsStoredExactly`).
- Percentages have no ceiling and caps no floor, so final totals can be negative or exceed the cart
  (`UncappedPercentSafeIff`, `DiscountNonNegativeIff`, `FinalTotalNonNegativeIff`).
- `record_usage` does not check the limits again (`RecordKeepsLimitsIff`, `LateRecordsPassTheLimit`).
- Resolving is documented for approved returns, but pending and rejected ones are resolved too (`ResolvedApprovedIff`).

## Model

| member | source | states |
|---|---|---|
| SlidingWindow.TrimmedIsWindow | api-gateway/app/core/rate_limiter.py:68-74 | After the trim the set is the full log of admissions filtered to (now - window, now], whether or not the TTL struck |
| SlidingWindow.ScriptRefinesLog | api-gateway/app/core/rate_limiter.py:62-93 | Over every run with ordered clocks the trimmed, expiring set takes the same decisions as an unbounded log filtered by the window |
| SlidingWindow.NextRequest | api-gateway/app/core/rate_limiter.py:70-92 | The next decision, the kept set and its size can be read off the log of admissions alone |
| SlidingWindowSafety.WindowBounded | api-gateway/app/core/rate_limiter.py:13-15 | No interval of window length, anywhere on the time line, holds more than `limit` distinct admitted members |
| SlidingWindowSafety.DeniedIffWindowFull | api-gateway/app/core/rate_limiter.py:73-84 | A request is denied exactly when `limit` admitted members already lie in its window |
| SlidingWindowSafety.ReplyCountsWindow | api-gateway/app/core/rate_limiter.py:56-92 | The count in the reply is the number of distinct members already admitted in the window, plus one for an admitted request |
| SlidingWindowSafety.AdmissionsCountedIffDistinct | api-gateway/app/core/rate_limiter.py:86-89 | The script's count is the number of admissions in the window exactly when their members differ, and otherwise less |
| SlidingWindowSafety.AdmissionsBounded | api-gateway/app/core/rate_limiter.py:62-93 | When all members of a run differ, no window holds more than `limit` admissions |
| SlidingWindowSafety.EveryRunBoundedIff | api-gateway/app/core/rate_limiter.py:86-89 | Without that, the bound on admissions holds over every run exactly for a limit of one or an empty window |
| SlidingWindowSafety.ExpiryInvisibleIff | api-gateway/app/core/rate_limiter.py:90-191 | The TTL of window + 1 s never changes a decision exactly if the server's clock gains at most that second on the gateway's |
| SlidingWindowSafety.DeniedLeaveNoTrace | api-gateway/app/core/rate_limiter.py:76-84 | Striking any denied requests out of a run changes no other decision and no admission |
| SlidingWindowSafety.RetryOfDenied | api-gateway/app/core/rate_limiter.py:76-84 | A denied request is told the whole seconds, rounded up and within 1..window, until the oldest of the `limit` members leaves |
| SlidingWindowSafety.RetryAfterIsExact | api-gateway/app/core/rate_limiter.py:76-84 | With nothing admitted since the denial, a request is admitted exactly from the millisecond the oldest entry leaves the window; the Retry-After value is that moment rounded up to a second (section 10.2.3 of RFC 9110) |
| SlidingWindowSafety.EarlyRetriesDeniedIff | api-gateway/app/core/rate_limiter.py:76-84 | However many retries follow a denial, none is admitted exactly if all come before the oldest entry leaves the window |
| ClockSteps.ShorterWindowsBounded | api-gateway/app/core/rate_limiter.py:68-90 | When the gateway's clock steps back by up to `back` ms, windows shorter by that much still hold at most `limit` distinct members |
| ClockSteps.WindowLengthBoundedIff | api-gateway/app/core/rate_limiter.py:68-90 | Which window lengths keep their bound over every such run: exactly those up to window - `back`, and up to the whole window for a limit of one |
| ClockSteps.ClockMustNotStepBack | api-gateway/app/core/rate_limiter.py:176-192 | The bound on the full window holds for every limit and window exactly if the clock never goes back, be it by a millisecond |
| RateLimiter.Limiter.Eval | api-gateway/app/core/rate_limiter.py:62-93 | The command-by-command script changes its own key only, to the state the run lemmas speak of |
| RateLimiter.Limiter.CheckRateLimit | api-gateway/app/core/rate_limiter.py:131-229 | Without a client or Redis the request passes and nothing is recorded; otherwise the script runs on the request's own key and a positive retry value is sent as Retry-After, and none means allowed |
| RateLimiter.RaisedIff | api-gateway/app/core/rate_limiter.py:203-229 | A 429 is raised exactly when the script denies and still holds an entry |
| RateLimiter.DenialAlwaysRaisedIff | api-gateway/app/core/rate_limiter.py:76-210 | Every denial becomes a 429 exactly for limits of at least one |
| RateLimiter.NonPositiveLimitNeverRaises | api-gateway/app/core/rate_limiter.py:76-210 | A key with a limit of zero or less stays empty and never refuses a request, over any run |
| RateLimiter.RefusedIffWindowFull | api-gateway/app/core/rate_limiter.py:203-229 | Over every run with a positive limit, 429 is raised exactly when the window is full |
| RateLimiter.KeysDoNotInteract | api-gateway/app/core/rate_limiter.py:175-192 | In any interleaving over all keys, a key's state and decisions are those of its own requests alone |
| RateLimiter.KeysSharedIff | api-gateway/app/core/rate_limiter.py:22-25 | Verbs never share a counter; within a verb, requests do exactly when path:client is one string |
| RateLimiter.ClientsCanShareIff | api-gateway/app/core/rate_limiter.py:175-176 | Two clients can share a counter on some pair of paths exactly when one address ends with a colon and the other |
| RateLimiter.KeysDistinguishClients | api-gateway/app/core/rate_limiter.py:175-176 | For client addresses without a colon a key names one verb, path and client |
| RateLimiter.Ipv6KeysCollide | api-gateway/app/core/rate_limiter.py:175-176 | Two IPv6 clients on two paths share one counter |
| RateLimitLaws.LimitApplied | api-gateway/app/core/rate_limiter.py:100-127 | The override binds first; without one the auth limit applies exactly to paths under the three prefixes, and the general limit to all others |
| RateLimitLaws.AllowedBounded | api-gateway/app/core/rate_limiter.py:203-229 | Over every run, at most `limit` requests whose times lie in any one window of 1000 * windowS ms are answered with Allowed |
| RateLimitLaws.AllowedIff | api-gateway/app/core/rate_limiter.py:203-229 | A request is allowed exactly when fewer than `limit` allowed requests lie in the 1000 * windowS ms up to it |
| RateLimitLaws.RetryAfterSent | api-gateway/app/core/rate_limiter.py:204-228 | The Retry-After sent to the client is the time until the oldest allowed request of its window is a whole window old, rounded up to seconds |
| RateLimitLaws.RetryAfterHonoured | api-gateway/app/core/rate_limiter.py:204-228 | With only refusals in between, the client is allowed again exactly from that moment: after the seconds it was sent, and not a second sooner |
| CivilDate.DayNumberOfPlusDays | cart_checkout_ext/app/services/subscription_service.py:15-17 | Day numbers count the days walked through the calendar, over months and leap years |
| CivilDate.DayNumberOrders | cart_checkout_ext/app/tasks/subscription_tasks.py:36 | Comparing dates field by field is comparing their day numbers, both ways |
| CivilDate.PlusMonthIsAWalk | cart_checkout_ext/app/services/subscription_service.py:18 | From every valid date, one clamped month on is a walk of 28 to 31 calendar days |
| CivilDate.PlusMonthMonotone | cart_checkout_ext/app/services/subscription_service.py:18 | A later date never lands earlier, and two dates land together exactly when both are clamped in one month |
| CivilDate.AddMonthOvertakenIff | cart_checkout_ext/app/services/subscription_service.py:18 | With times of day a later start renews earlier exactly when both are clamped and its time of day is earlier |
| CivilDate.LaterStartEarlierRenewal | cart_checkout_ext/app/services/subscription_service.py:18 | 30 January 23:00 renews after 31 January 01:00 |
| Subscriptions.SchedulesAgree | cart_checkout_ext/app/tasks/subscription_tasks.py:60-65 | The sweep's schedule is the service's: exactly a week, or 28 to 31 days, ahead |
| Subscriptions.Subscription.constructor | cart_checkout_ext/app/services/subscription_service.py:25-39 | A new subscription is active, unbilled and one period from its start |
| Subscriptions.Subscription.Pause | cart_checkout_ext/app/services/subscription_service.py:66-77 | Exactly the owner of an active subscription pauses it, and the time is recorded; refused calls change nothing |
| Subscriptions.Subscription.Resume | cart_checkout_ext/app/services/subscription_service.py:88-101 | Only the owner of a paused one resumes it, a full period ahead; attempts and notice flag stay |
| Subscriptions.Subscription.Cancel | cart_checkout_ext/app/services/subscription_service.py:110-119 | The owner cancels from any other status, once, and status, time and reason are recorded |
| Subscriptions.ChargeRows | cart_checkout_ext/app/tasks/subscription_tasks.py:40-53 | The billing loop charges each row once and counts successes and failures |
| Subscriptions.ProcessDueRenewals | cart_checkout_ext/app/tasks/subscription_tasks.py:25-57 | Each due subscription takes one billing step, no other is touched, and processed = succeeded + failed = number due |
| Subscriptions.SendUpcomingRenewalNotices | cart_checkout_ext/app/tasks/subscription_tasks.py:87-111 | Each unannounced subscription in the notice window is queued once with its renewal date, no other is touched |
| SubscriptionRuns.ChargesSpaced | cart_checkout_ext/app/tasks/subscription_tasks.py:40-47 | Over every run successive successful charges are at least 7 (weekly) or 28 (monthly) days apart |
| SubscriptionRuns.ChargesInSpan | cart_checkout_ext/app/tasks/subscription_tasks.py:40-47 | Any span of D days sees at most D/7 + 1 or D/28 + 1 successful charges |
| SubscriptionRuns.RunConsistent | cart_checkout_ext/app/tasks/subscription_tasks.py:42-53 | Over every run the attempt counter is the refusals since the last success and below 3 unless past due; at most one notice goes out between successes, each ahead of its renewal date by at most the notice period |
| SubscriptionRuns.PastDueOnThirdRefusal | cart_checkout_ext/app/tasks/subscription_tasks.py:49-53 | PAST_DUE is entered exactly by the third refusal in a row |
| SubscriptionRuns.CancelledIsFinal | cart_checkout_ext/app/services/subscription_service.py:110-119 | Nothing later changes a cancelled subscription or bills it |
| SubscriptionRuns.PastDueOnlyCancels | cart_checkout_ext/app/services/subscription_service.py:66-119 | A past-due subscription is never billed again and can only be cancelled |
| SubscriptionRuns.PausedIsNotBilled | cart_checkout_ext/app/routers/subscription.py:60 | Until resumed, a paused subscription is neither billed nor announced |
| SubscriptionRuns.ResumedWaitsAPeriod | cart_checkout_ext/app/services/subscription_service.py:95-99 | After resuming, no charge is tried for a full minimal period, whatever the customer does in it |
| SubscriptionRuns.SweepUsesAnAttempt | cart_checkout_ext/app/tasks/subscription_tasks.py:40-53 | A sweep that finds a subscription due lowers its attempts left at that time, and otherwise leaves it alone |
| SubscriptionRuns.ThreeSweepsSettle | cart_checkout_ext/app/tasks/subscription_tasks.py:21-54 | Three sweeps at one time leave no subscription due, whatever the payments service answers |
| SubscriptionLaws.StrangersChangeNothing | cart_checkout_ext/app/services/subscription_service.py:50-57 | Pausing, resuming or cancelling someone else's subscription is refused and changes nothing |
| SubscriptionLaws.CancelTakesEffect | cart_checkout_ext/app/services/subscription_service.py:110-119 | After the owner cancels, from whatever status, no charge and no notice follows in any continuation |
| SubscriptionLaws.PauseTakesEffect | cart_checkout_ext/app/services/subscription_service.py:66-77 | After the owner pauses an active subscription there is no charge and no notice until the owner resumes |
| SubscriptionLaws.ResumeTakesEffect | cart_checkout_ext/app/services/subscription_service.py:88-101 | A paused subscription becomes active, due exactly one period after the call |
| SubscriptionLaws.SweepBills | cart_checkout_ext/app/tasks/subscription_tasks.py:33-53 | A sweep bills exactly the active rows whose date has come; a paid charge moves the date exactly one period on and clears attempts and flag, a refused one counts, the third ending in PAST_DUE |
| SubscriptionLaws.SweepReminds | cart_checkout_ext/app/tasks/subscription_tasks.py:87-107 | A notice goes out exactly to active, unflagged rows that renew later than now and within three days |
| SubscriptionLaws.StartsClean | cart_checkout_ext/app/services/subscription_service.py:25-39 | A new subscription is active and clean, due exactly one period after its start |
| SubscriptionLaws.DatesComeFrom | cart_checkout_ext/app/tasks/subscription_tasks.py:43-47 | Over every run the renewal date is exactly one period after it was last set, and the last renewal is the last charge in the log |
| SubscriptionLaws.PaidAreCounted | cart_checkout_ext/app/tasks/subscription_tasks.py:42-48 | The successes reported are the rows whose charge was taken |
| SubscriptionLaws.MonthLengths | cart_checkout_ext/app/services/subscription_service.py:18 | The twelve month lengths, with the leap years of the calendar |
| RenewalNotices.AnnouncedIff | cart_checkout_ext/app/tasks/subscription_tasks.py:88-107 | While a renewal date stands it is announced exactly if the flag was down and a notice sweep finds the subscription active in the three days before it |
| RenewalNotices.DateAnnouncedIff | cart_checkout_ext/app/tasks/subscription_tasks.py:42-107 | Over every run, from any moment to the next charge or resume: announced exactly if no notice had gone out since the last charge and a sweep finds it active in period |
| RenewalNotices.DateAnnounceableIff | cart_checkout_ext/app/services/subscription_service.py:27-97 | A date set by creating or resuming can still be announced exactly if the flag is down and the date lies ahead |
| RenewalNotices.BackdatedStartUnannounced | cart_checkout_ext/app/services/subscription_service.py:27-36 | With a start so far back that the first renewal is never ahead, no notice precedes the first charge in any run |
| RenewalNotices.ChargedUnannounced | cart_checkout_ext/app/tasks/subscription_tasks.py:88-107 | A run of five events that ends in a charge on a resumed date never announced |
| RenewalNotices.BackdatedChargedUnannounced | cart_checkout_ext/app/services/subscription_service.py:27-36 | A run of two sweeps that ends in a charge never announced, after a back-dated start |
| Journal.JournalService.CreateAndPost | finance-service/app/services/journal_service.py:67-122 | Accounts, balance and line checks decide in that order; an accepted entry is appended, posted or as a draft |
| Journal.JournalService.Post | finance-service/app/services/journal_service.py:124-143 | Only a draft is posted |
| Journal.JournalService.Reverse | finance-service/app/services/journal_service.py:145-191 | Only a posted entry is reversed, by a posted entry with swapped sides |
| JournalLaws.ValidRequestIff | finance-service/app/schemas/journal.py:15-38 | The validator's non-zero check is implied by its other checks |
| JournalLaws.AcceptedIsValid | finance-service/app/services/journal_service.py:77-106 | Callers that skip the validator can still only store valid requests, or an entry without lines |
| JournalLaws.SwapTwice | finance-service/app/services/journal_service.py:168-177 | The reversal of a reversal carries the original lines |
| JournalLaws.RunKeeps | finance-service/app/services/journal_service.py:4-12 | Over every run entries balance on known accounts, and reversed entries and reversals pair up one to one |
| JournalLaws.EntriesAreImmutable | finance-service/app/services/journal_service.py:10-12 | Whatever is called later, no entry is removed, has its lines or date edited or moves its status back |
| JournalLaws.TrialBalance | finance-service/app/services/ledger_service.py:93-106 | After any run, at any date, debit totals and credit totals summed over all accounts agree |
| JournalLaws.AccountingEquation | finance-service/app/models/ledger.py:33-41 | After any run, at any date, assets + expenses = liabilities + equity + income in signed balances |
| JournalLaws.ReversalBalance | finance-service/app/services/ledger_service.py:85-113 | Reversing takes the entry out of a balance from its own date on, and once more from the day of reversal on |
| JournalLaws.PostThenReverseRestoresIff | finance-service/app/services/journal_service.py:145-191 | Posting and reversing restores an account's balance exactly when the entry's lines on it already cancel |
| JournalLaws.ReversedSaleOverdraws | finance-service/app/services/journal_service.py:145-191 | A sale of 100, posted and reversed, leaves the bank account at -100 |
| BalanceLaws.BalanceIsPosted | finance-service/app/services/ledger_service.py:93-113 | A balance is what the POSTED entries up to the day debit to the account less what they credit, or the other way round for liabilities, equity and income |
| BalanceLaws.PostedTrialBalance | finance-service/app/services/ledger_service.py:93-106 | After any run, at any date, posted debits and posted credits over all accounts agree |
| BalanceLaws.StoredIff | finance-service/app/services/journal_service.py:67-106 | An entry is stored exactly when its accounts are known and active, each line has one positive side, and the sides balance |
| BalanceLaws.CreateMovesBalance | finance-service/app/services/journal_service.py:67-122 | An entry posted at once moves each balance by its net from its date on; a draft moves none |
| BalanceLaws.PostMovesBalance | finance-service/app/services/journal_service.py:124-143 | Posting a draft adds exactly its net, from its own date on |
| BalanceLaws.ReverseMovesBalance | finance-service/app/services/journal_service.py:145-191 | Reversing takes out the entry's net from its date on and again from the day of reversal on |
| BalanceLaws.RefusedChangesNothing | finance-service/app/services/journal_service.py:124-151 | Posting what is no draft and reversing what is not posted changes nothing |
| BalanceLaws.LatePostingCatchesUp | finance-service/app/services/journal_service.py:67-143 | A draft leaves every balance alone, and posting it gives the ledger that posting at once would have given |
| Rounding.HalfEven | customer_commerce_service/app/services/invoice_service.py:33-35 | The rounded value is within one half of the exact one, and even at a tie |
| Rounding.HalfEvenIsUnique | customer_commerce_service/app/services/invoice_service.py:33-35 | Those two properties determine it |
| Rounding.HalfEvenAtMost | customer_commerce_service/app/services/coupon_service.py:101 | Whether the rounded value passes a whole number, decided from the exact value |
| Coupons.CouponService.CreateCoupon | customer_commerce_service/app/services/coupon_service.py:30-51 | A code is stored once, in upper case |
| Coupons.CouponService.ValidateCoupon | customer_commerce_service/app/services/coupon_service.py:62-112 | The checks decide in the source's order; a refusal leaves the total, an accepted coupon takes its discount off it |
| Coupons.CouponService.RecordUsage | customer_commerce_service/app/services/coupon_service.py:114-134 | One use more for the coupon and for the user's single row; unknown codes change nothing |
| CouponLaws.CodesIgnoreCase | customer_commerce_service/app/services/coupon_service.py:65-67 | Looking up a code changes its small ASCII letters to capitals and nothing else |
| CouponLaws.AcceptedIff | customer_commerce_service/app/services/coupon_service.py:79-98 | A cart may use a coupon exactly when it is stored and active, the time is in its validity, and total limit, minimum order and limit per user leave room |
| CouponLaws.RefusedFor | customer_commerce_service/app/services/coupon_service.py:71-98 | A refusal names the first failing check and reports the unchanged total |
| CouponLaws.PercentTakesOff | customer_commerce_service/app/services/coupon_service.py:100-112 | An accepted percentage takes off the nearest paisa, a tie going to the even one, or the cap if lower, and the rest is to pay, for every exact decimal total |
| CouponLaws.FixedTakesOff | customer_commerce_service/app/services/coupon_service.py:104-112 | An accepted fixed amount takes off its value, or the whole total if that is less |
| CouponLaws.AcceptedSplitsCart | customer_commerce_service/app/services/coupon_service.py:100-112 | On whole paise, at most 100 percent and no negative cap, discount and final total are non-negative and add up to the cart |
| CouponLaws.RowsCountUses | customer_commerce_service/app/services/coupon_service.py:114-134 | Over every run a user's row counts that user's records of the coupon one by one |
| Coupons.DiscountNonNegativeIff | customer_commerce_service/app/services/coupon_service.py:100-105 | A discount is negative exactly when a negative cap was stored |
| Coupons.FinalTotalNonNegativeIff | customer_commerce_service/app/services/coupon_service.py:100-112 | Exactly when a percent discount stays within the cart, for every exact decimal total |
| Coupons.DiscountWithinTotal | customer_commerce_service/app/services/coupon_service.py:100-112 | Whole paise, at most 100 percent and no negative cap: 0 <= discount <= total; a percentage is the nearest paisa, or the cap where that binds; a fixed amount comes off down to zero |
| Coupons.DiscountMonotone | customer_commerce_service/app/services/coupon_service.py:100-105 | A larger cart never gets a smaller discount |
| Coupons.FinalTotalMonotone | customer_commerce_service/app/services/coupon_service.py:100-112 | On whole paise, at most 100 percent, a larger cart never costs less, in spite of half-even ties |
| Coupons.UncappedPercentSafeIff | customer_commerce_service/app/schemas/coupon.py:15-17 | Without a cap, non-negative and growing final totals hold on all carts exactly for at most 100 percent |
| Coupons.AcceptanceGrows | customer_commerce_service/app/services/coupon_service.py:79-98 | A cart that may use a coupon may still use it when it grows |
| Coupons.AcceptanceIsAnInterval | customer_commerce_service/app/services/coupon_service.py:79-98 | The times at which a coupon is accepted form an interval inside its validity, with one discount throughout |
| Coupons.UsageConserved | customer_commerce_service/app/services/coupon_service.py:114-134 | Over every run a coupon's counter is the sum of its uses over the users |
| Coupons.RecordKeepsLimitsIff | customer_commerce_service/app/services/coupon_service.py:114-134 | Recording a use keeps both limits exactly when there was room under both |
| Coupons.RedeemedRunsStayWithinLimits | customer_commerce_service/app/services/coupon_service.py:85-134 | If each record directly follows its accepted validation, no limit is passed over any run |
| Coupons.LateRecordsPassTheLimit | customer_commerce_service/app/services/coupon_service.py:85-134 | From an empty store: a single-use coupon is created, two validations are accepted, and their two records pass its limit |
| Invoices.InvoiceService.CreateInvoice | customer_commerce_service/app/services/invoice_service.py:29-59 | Each component is the rounded tax at its rate on subtotal less discount, and the total is that amount with the three components |
| Invoices.InvoiceService.MarkGenerated | customer_commerce_service/app/services/invoice_service.py:70-76 | Generating the document changes no amount and no other invoice |
| Invoices.TaxIsNearest | customer_commerce_service/app/services/invoice_service.py:33-35 | A component is the nearest paisa to amount * rate / 100, a tie going to the even one |
| Invoices.TotalNearExact | customer_commerce_service/app/services/invoice_service.py:32-36 | The three rounded components are within 1.5 paise of the exact tax at the summed rate, of any sign |
| Invoices.SplitAgainstWhole | customer_commerce_service/app/services/invoice_service.py:33-35 | Two equal halves differ from the whole rate by at most a paisa, and not at all exactly when the whole tax is even |
| Invoices.RefundMirrors | customer_commerce_service/app/services/invoice_service.py:32-35 | A negative taxable amount carries the negated taxes |
| Invoices.TaxMonotone | customer_commerce_service/app/services/invoice_service.py:32-35 | A larger taxable amount is never taxed less |
| Inventory.InventoryService.CreateReservation | inventory_service/app/services/reservation_service.py:29-63 | Holds a quantity exactly if that much is available, and otherwise changes nothing |
| Inventory.InventoryService.ConfirmReservation | inventory_service/app/services/reservation_service.py:73-98 | An active hold leaves on hand and reserved by its quantity, and the log records it going out; other holds are refused unchanged |
| Inventory.InventoryService.ReleaseReservation | inventory_service/app/services/reservation_service.py:101-127 | An active hold is given back; releasing again changes nothing |
| Inventory.InventoryService.ReleaseExpiredReservations | inventory_service/app/services/reservation_service.py:130-141 | Releases the expired holds and returns their number |
| Inventory.InventoryService.AdjustStock | inventory_service/app/services/warehouse_service.py:66-94 | Refused exactly if it would leave less on hand than reserved |
| Inventory.InventoryService.TransferStock | inventory_service/app/services/warehouse_service.py:97-142 | Moves an available quantity between two different warehouses and logs both legs |
| Inventory.InventoryService.CheckAvailability | inventory_service/app/services/bom_service.py:73-99 | Says whether every line by itself fits the available quantity |
| Inventory.InventoryService.StartProduction | inventory_service/app/services/batch_service.py:72-106 | Consumes every line if the check passes, and otherwise nothing |
| Inventory.InventoryService.YieldProduct | inventory_service/app/services/batch_service.py:116-135 | Credits the finished product, creating its row if needed |
| InventoryLaws.RunAccounted | inventory_service/app/core/audit.py:3-7 | Over every run each quantity on hand is the sum of the logged movements, and each reserved quantity the sum of the active reservations |
| InventoryLaws.ReleaseAccounts | inventory_service/app/services/reservation_service.py:114-115 | The guard against a negative reserved quantity never binds, and releasing keeps levels and log in agreement |
| InventoryLaws.TransferConserves | inventory_service/app/services/warehouse_service.py:113-116 | A transfer changes no item's total over warehouses that include both ends |
| InventoryLaws.StartBatchSafeIff | inventory_service/app/services/batch_service.py:77-94 | Starting a batch keeps reserved stock covered exactly when its lines fit the available quantity item by item, taken together |
| InventoryLaws.RepeatedLineOversells | inventory_service/app/services/bom_service.py:83-92 | From an empty store: 10 come in, a batch with two lines of 6 of that item is started, and -2 are on hand |
| InventoryLaws.NeverOversoldIff | inventory_service/app/services/batch_service.py:77-94 | 0 <= reserved <= on hand holds everywhere throughout a run exactly when every batch, as it was started, was refused or its lines fitted together |
| InventoryLaws.RunNotOversold | inventory_service/app/models/warehouse.py:50-52 | So it holds over every run whose batches list no item twice |
| InventoryLaws.SweepReleasesExactlyExpired | inventory_service/app/services/reservation_service.py:130-141 | After the sweep no expired reservation is active and every other one is as it was |
| InventoryLaws.ReleaseUndoesReserve | inventory_service/app/services/reservation_service.py:29-127 | Releasing what was just reserved puts every level back |
| InventoryLaws.EndedIsFinal | inventory_service/app/services/reservation_service.py:73-127 | A confirmed or released reservation never changes again |
| InventoryFlow.ReserveHolds | inventory_service/app/services/reservation_service.py:29-63 | A quantity is held exactly when the row exists and that much is on hand beyond what is reserved; nothing leaves |
| InventoryFlow.ConfirmConsumes | inventory_service/app/services/reservation_service.py:73-98 | Confirming an active hold of q lowers on hand and reserved there by q, touches no other place and logs -q |
| InventoryFlow.ReleaseGivesBack | inventory_service/app/services/reservation_service.py:101-127 | Releasing an active hold lowers reserved by q and leaves what is on hand |
| InventoryFlow.AdjustMoves | inventory_service/app/services/warehouse_service.py:66-94 | An adjustment moves what is on hand by its amount, unless that would fall below what is reserved |
| InventoryFlow.TransferMoves | inventory_service/app/services/warehouse_service.py:97-142 | An available quantity leaves the source and enters the target exactly, both legs logged |
| InventoryFlow.OnHandIsArrivedLessSold | inventory_service/app/services/reservation_service.py:84-92 | Over every run what is on hand is what came in, less what batches and transfers took, less all confirmed reservations |
| StoredQuantities.WholeRunsStoredExactly | inventory_service/app/models/warehouse.py:62-63 | Over every run in whole thousandths the three-decimal columns hold the exact levels, holds and movements |
| StoredQuantities.StoredChangeAgreesIff | inventory_service/app/services/warehouse_service.py:74-87 | A stored level moves by exactly the stored movement unless the change lies half way between two thousandths and the new level has the other sign |
| StoredQuantities.HalfThousandthLost | inventory_service/app/models/warehouse.py:101 | Taking 0.0005 from 10 leaves 10 on hand and -0.001 in the log |
| Reviews.ReviewService.CreateReview | catalog_service/app/services/review_service.py:13-29 | A review of a known product enters as pending; others are refused |
| Reviews.ReviewService.ModerateReview | catalog_service/app/services/review_service.py:57-68 | The review takes the status given and its product's row is recomputed |
| Reviews.ReviewService.RecomputeRatingAggregate | catalog_service/app/services/review_service.py:71-96 | The product's row, inserted if missing, becomes the rating of its reviews, and no other row changes |
| Reviews.RatingAlwaysAgrees | catalog_service/app/services/product_service.py:162-169 | Over every run of submissions, moderations and extra recomputes the cached rating read for any product is the one a fresh recompute would give |
| Reviews.RatingInRange | catalog_service/app/services/review_service.py:93-94 | Over every run a shown mean lies between one and five |
| RatingLaws.RatingIsOfApproved | catalog_service/app/services/review_service.py:78-94 | Over every run the count read is the number of stored reviews of the product with status APPROVED, and the average the mean of exactly their ratings to the nearest hundredth; zeros if there are none |
| RatingLaws.StatusIsLastGiven | catalog_service/app/services/review_service.py:57-65 | Over every run a review has the status of its last moderation, or is pending |
| RatingLaws.SubmittedIsPending | catalog_service/app/services/review_service.py:13-29 | A submitted review of a known product is stored last as pending and changes no rating |
| RatingLaws.ModeratedOnly | catalog_service/app/services/review_service.py:57-68 | A moderation records status, moderator and notes on the one review and changes no other product's rating |
| Returns.ReturnRequest.ApproveReturn | admin_cms_service/app/services/returns_service.py:79-111 | Approves a pending request with its decision and pickup; otherwise everything is rolled back |
| Returns.ReturnRequest.RejectReturn | admin_cms_service/app/services/returns_service.py:114-129 | Rejects a pending request; otherwise everything is rolled back |
| Returns.ReturnRequest.ResolveReturn | admin_cms_service/app/services/returns_service.py:132-143 | Never refused |
| Returns.RunKeeps | admin_cms_service/app/services/returns_service.py:51-76 | Over every run the trail is a chain from PENDING to the status with at most one decision, and the columns agree with it |
| Returns.ReachableTrails | admin_cms_service/app/services/returns_service.py:51-76 | The status sequences that occur are exactly: at most one decision, first, then resolutions |
| Returns.DecidedIsFinal | admin_cms_service/app/services/returns_service.py:51-57 | After the first event the decision columns never change, the trail only grows, and RESOLVED leads only to RESOLVED |
| Returns.SecondDecisionRefused | admin_cms_service/app/services/returns_service.py:51-57 | A decision after the first changes nothing |
| Returns.ApprovalStands | admin_cms_service/app/services/returns_service.py:79-111 | Whatever is called later, an approved return keeps its decision, and a reference exactly if restock was wanted and logistics gave one |
| Returns.RejectionStands | admin_cms_service/app/services/returns_service.py:114-129 | A rejected return never carries a refund, restock or reference |
| Returns.ResolvedApprovedIff | admin_cms_service/app/routes/returns.py:120-121 | A resolved return was approved exactly when it was approved, or resolved after an approval, before the call |
| ReturnLaws.ApproveDecides | admin_cms_service/app/services/returns_service.py:79-111 | A pending request becomes APPROVED with the decision stored, one event added, and the reference logistics gives for a restock; others stay as they are |
| ReturnLaws.RejectDecides | admin_cms_service/app/services/returns_service.py:114-129 | A pending request becomes REJECTED, keeping of the decision only its tier and notes; others stay as they are |
| ReturnLaws.ResolveCloses | admin_cms_service/app/services/returns_service.py:132-143 | Any request becomes RESOLVED, its decision unchanged |
| ReturnLaws.FirstCallDecides | admin_cms_service/app/services/returns_service.py:51-111 | Over every run the first call alone decides tier, refund, restock and reference |
| ReturnLaws.ResolvedIffCalled | admin_cms_service/app/services/returns_service.py:132-143 | Over every run a request is resolved exactly when some call resolved it |
| Carts.Cart.AddItem | customer_commerce_service/app/services/cart_service.py:35-58 | On the map, the quantity grows up to 100 and the latest price stands |
| Carts.Cart.UpdateItem | customer_commerce_service/app/services/cart_service.py:60-69 | Sets the quantity of one line, or reports that there is none |
| Carts.Cart.RemoveItem | customer_commerce_service/app/services/cart_service.py:71-79 | Takes one line out, or reports that there is none |
| Carts.Cart.Clear | customer_commerce_service/app/services/cart_service.py:81-87 | Leaves the empty map and no coupon |
| Carts.Cart.ComputeSubtotal | customer_commerce_service/app/services/cart_service.py:95-105 | The reported subtotal is the sum over the map |
| Carts.AddRefines | customer_commerce_service/app/services/cart_service.py:38-53 | Adding to the list is adding to the map, and keeps one line a product in 1..100 |
| Carts.UpdateRefines | customer_commerce_service/app/services/cart_service.py:62-65 | Updating sets the quantity of the line with the id and nothing else; on the map, of its product at its price |
| Carts.RemoveRefines | customer_commerce_service/app/services/cart_service.py:73-76 | Removing takes out the line with the id and nothing else; on the map, its product |
| Carts.RunValid | customer_commerce_service/app/services/cart_service.py:35-105 | Over every run each product has one line of 1 to 100, and the subtotal is the sum over the map |
| Carts.AddsSaturate | customer_commerce_service/app/services/cart_service.py:38-53 | Adds of any products in any order and grouping leave each at min(100, sum asked for) and its latest price |
| Carts.RemoveUndoesAdd | customer_commerce_service/app/services/cart_service.py:44-76 | Removing the line of a product just added restores the list |
| CartLaws.AddMerges | customer_commerce_service/app/services/cart_service.py:38-53 | Adding to a product with a line changes that line alone: the sum up to 100, at the new price; otherwise the new line comes last |
| CartLaws.InViewIff | customer_commerce_service/app/services/cart_service.py:35-79 | The map knows exactly the products that have a line |
| CartLaws.ViewIs | customer_commerce_service/app/services/cart_service.py:95-105 | And says of each its line's quantity and price |
| CartLaws.SubtotalIsLineSum | customer_commerce_service/app/services/cart_service.py:95-105 | The subtotal is price times quantity, added up over the lines |

## Left out

- Redis connections, HTTP, Celery, FastAPI and SQLAlchemy plumbing, authentication and logging: no logic of their own here.
- Concurrency: each service call, script call and sweep is one atomic step; edits while a sweep is open are not modelled.
- SlidingWindow.Insert: orders entries by score only, because the script never looks at the order of members inside one score.
- SlidingWindow.ScriptRefinesLog: assumes that the gateway's clock never goes back for a key and that a key's limit is fixed; ClockSteps bounds the windows without the first assumption.
- RateLimiter.Limiter.CheckRateLimit: a Redis failure is modelled as happening before the script ran.
- CivilDate.Date: years have no upper bound, where Python's dates end with the year 9999; all times are UTC.
- Subscriptions.Subscription: price, plan, address and payment token are opaque to the sweeps and are not fields.
- Subscriptions.SendUpcomingRenewalNotices: delivery of a queued reminder and its retries are not modelled.
- Journal.Entry: the ISO date string is an integer day, and numbering, descriptions, memos and the audit log are omitted.
- JournalLaws.Command: accounts are fixed during a run; creating and deactivating them only narrows what is accepted.
- Coupons.Upper: upper-cases ASCII letters only, because stored codes match an ASCII pattern.
- Coupons.PercentOf: exact, where Decimal keeps 28 significant digits.
- Reviews.Rating: rounds the exact mean half to even, where the code rounds its binary float, so a mean on a tie such as 3.005 can differ by a hundredth.
- Reviews.ReviewService: deleting a product, which cascades to its reviews and its row, is not modelled.
- Returns.Event: timestamps are omitted; the trail's order is the order of the calls.
- Carts.Item: cart expiry, activity times and applying a coupon code are omitted.
- Inventory.Level: quantities are exact, where the code computes in floats; the rounding of the columns is treated in StoredQuantities, with PostgreSQL's rule for NUMERIC (a half goes away from zero).
- Inventory.Reservation: the run lemmas leave out inventory_service/app/services/stock_reservation_service.py, whose routes write a table of the same name and change statuses without touching any level.
- Inventory.InventoryService: unknown warehouses, batch statuses, versions of bills of materials and movement types are omitted.
- Refunds, credit notes, GST returns, reconciliation, CRM, loyalty, content and redirects: other services, not part of this model.
