# Verification of the signing authority

A Dafny 4.11 model of the Go services under `backend/`: the lease that mints fencing epochs, the
leader that holds it, the ledger that authorizes signatures, the reconciler that follows the
exchange, the wire encoding that gets hashed and signed, and the limiters, budgets and allocators
around them. `dafny verify dfyconfig.toml` checks all of it.

## How it is built

| file | models |
|---|---|
| `Numbers.dfy`, `Wrappers.dfy`, `Address.dfy` | 64-bit integers that wrap, floats as `NaN`, two infinities and exact reals, `Option`/`Result`, owner addresses |
| `Lease.dfy`, `Leader.dfy` | the lease row and one instance's acquire-or-renew step, with store calls that fail before or after they took effect |
| `SingleWriter.dfy`, `Ledger.dfy` | fence, clock, cap and nonce in one transition; idempotent authorization by (key, cloid) over four maps |
| `Protocol.dfy` | several instances, one lease, one ledger, requests in flight with old fences, as one state machine |
| `ExactlyOnce.dfy`, `Budgets.dfy` | whole runs of the ledger: one grant per cloid, invisible retries, nonce drift, daily budgets |
| `Signer.dfy`, `Consent.dfy`, `Serving.dfy` | the signing endpoint on parsed requests, exactly what it takes to get a signature, and whole runs of it under a fixed policy store |
| `Lifecycle.dfy`, `Reconciler.dfy`, `Convergence.dfy` | the status lifecycle, one reconciler pass in any map order, what repeated and interrupted passes do |
| `Msgpack.dfy`, `LongArrays.dfy`, `Actions.dfy`, `WireFormat.dfy`, `L1Hash.dfy`, `UserSigned.dfy` | MessagePack writer and an independent decoder, why long lists stay unambiguous, action builders, what the exchange reads under each field name, hash preimages, EIP-712 digests |
| `Policy.dfy`, `RateLimit.dfy`, `WsShard.dfy`, `Fills.dfy`, `Nonce.dfy`, `Spend.dfy` | policy store and gate, token buckets, shard allocator, fills paging, and the older nonce and spend guards |

Objects that the services update in place are classes whose methods are proved equal to a pure
function of the old state; the theorems are about those functions. Go's map iteration is a choice of
an arbitrary remaining element. Clocks, randomness and outages are arguments. Hashes are arbitrary
functions with 32-byte results: no theorem takes a hash to be injective, each names the pair of
inputs that would collide.

## What is true, and where it stops

- **One writer per epoch.** Fresh grants of a key carry non-decreasing fences and strictly increasing
  nonces in every interleaving, and equal fences mean one instance, if holder ids are unique. Two
  instances that share a holder id can both lead and both be granted under one epoch
  (`Protocol.SharedHolderSplitsBrain`). Epochs and nonces are 64-bit and would wrap; it takes 2^63
  steps.
- **Exactly once.** A (key, cloid) has one fresh grant; later answers repeat its nonce or are refused,
  and a retry inserted anywhere changes nothing else.
- **Interrupted reconciliation.** With distinct account keys, a pass cut short and retried ends with the
  records of the one full pass if and only if no live intent is stranded: its fill, which the first pass
  could see, has fallen behind the retry's fills anchor, and its order status is not "filled"
  (`Convergence.RetryCatchesUpIff`). A fill falls behind because the look-back has moved past it, or
  because each older live intent that had held the anchor back is over or has been stamped anew
  (`Convergence.WhyFillsAreLost`); `Convergence.PartialFillThenCancelDiverges` is a case where it does.
- **Encoding.** The MessagePack round trip holds for exactly the values whose strings are under 2^32
  bytes and whose arrays and maps have under 65536 entries; beyond that lengths are cut and two
  different arrays encode to the same bytes (`Msgpack.OversizedArraysCollide`). The bytes that get
  signed need less: only strings under 2^32 bytes, since an action's lists are lists of maps and what
  follows them tells where they end. So the signed preimage determines the action asked for, with lists
  of any length, and the nonce, vault and expiry, for a 20-byte or absent vault; a longer vault can
  swallow an expiry (`L1Hash.OddVaultIsAmbiguous`). EIP-712 type strings are unambiguous for names
  without delimiters, which the shipped tables have.
- **Said and signed.** For strings and lists that the headers can announce, decoding the signed bytes and
  looking fields up by the exchange's names gives back every field of the action, in the exchange's
  order, optional fields exactly when given (`WireFormat.BytesReadByName`).
- **Consent.** A request is signed if and only if the key is known, the instance leads and can sign, the
  limiters let it through, its parameters make an action of the kind named, the configuration consents
  to its kind and worth, the owner's keys agree about their shared cap, and the ledger admits it
  (`Consent.SignedExactlyWhen`); otherwise the first obstacle is the answer (`Consent.FirstObstacle`,
  `Consent.LedgerDecides`).
- **Charged and signed.** The notional is read from part of the parameters the action is built from, and
  it is what the orders inside the signed action come to (`Signer.NotionalIsWorth`). So the budgets bound
  signed orders, and every signature rests on the one fresh grant that was charged for it.
- **Fills paging.** Paging that came to a stop has every fill since the start exactly when no
  millisecond fills a whole page with more fills to come.
- **Limiters.** A key's call is granted exactly if there is room for its bucket and a token on hand. There is
  no room exactly for a new key when the map is full of buckets none of which has been idle too long;
  short of that, eviction and cap are invisible to the key if idle time refills a bucket.
- **Policy flags.** A key whose owner's budgets are numbers is flagged exactly when some sibling's budget
  turns away what its own lets through. An owner's conflict flag agrees with its keys' flags except exactly for an owner
  whose only key has a NaN budget. For the address cap some key is unflagged exactly when no cap is NaN.
- **Budgets, buckets, nonces and the older guards** need a clock, or UTC days, that do not go
  backwards; `Budgets.ReturningDayOverspends`, `RateLimit.RegressingClockIsUnbounded`,
  `ExactlyOnce.RegressingClockRunsAhead` and `Spend.DayRegressDisagrees` show what happens otherwise.
  A NaN daily cap is no cap: every comparison with it is false, so the single writer accepts.

Where comments and code disagree the model follows the code. The single writer checks the clock
before the notional, which the order in its comment omits (`backend/internal/singlewriter/decide.go:10`).
EIP-712 fields may also be `bool`, which the type's comment omits
(`backend/internal/hl/usersigned.go:11`).

## Model

| member | source | states |
|---|---|---|
| Lease.DecideMeaning | backend/internal/lease/decide.go:38-64 | only acquire mints an epoch; a live lease is taken by nobody and renewed by its holder only; a rejection or a stranger's release changes nothing |
| Lease.Mem.Apply | backend/internal/lease/mem.go:47-62 | one operation moves its own row by the transition and no other row |
| Lease.EpochCountsMintings | backend/internal/lease/decide.go:41-44 | after any run the row's epoch is the number of successful acquires |
| Lease.EpochHasOneHolder | backend/internal/lease/decide.go:35-37 | each epoch has one holder for the whole run |
| Lease.EpochsNeverFall | backend/internal/lease/decide.go:35-37 | over a run the epoch never falls |
| Lease.MintingMeansLapsedOrReleased | backend/internal/lease/decide.go:38-64 | with a steady clock and one ttl, releases sent with none, when epoch e+1 is minted every lease ever returned for e has expired or been released |
| Lease.ReleasedLeaseMayStillRun | backend/internal/lease/decide.go:55-59 | a lease given back can still be running when the next epoch is minted: a concrete history |
| Lease.RowOutlivesLease | backend/internal/lease/decide.go:46-50 | while an epoch lasts unreleased, the row expires no earlier than any lease returned for it |
| Lease.ShorterRenewalBreaksExclusivity | backend/internal/lease/decide.go:46-50 | with varying ttl an earlier lease can outlive its epoch: a concrete history |
| Leader.Leader.Step | backend/internal/leader/leader.go:46-75 | one acquire-or-renew cycle, whichever store calls fail before or after taking effect, moves belief and row as specified and no other row |
| Leader.Leader.Set | backend/internal/leader/leader.go:77-82 | belief is replaced as a whole |
| Leader.Leader.Stop | backend/internal/leader/leader.go:92-97 | shutting down tries to release and always stops leading |
| Leader.Leader.CallStore | backend/internal/leader/leader.go:52-70 | a store call that may fail before or after it took effect |
| Leader.FaultlessStep | backend/internal/leader/leader.go:51-74 | without faults a step leads afterwards exactly if it could renew its live lease, keeping the epoch, or found it free, minting the next |
| Leader.OutageKeepsBelief | backend/internal/leader/leader.go:60-67 | an outage while renewing keeps belief and epoch and does not acquire |
| Leader.LeadingMeansHolding | backend/internal/leader/leader.go:46-75 | a step that ends in leadership holds the row under that epoch, unless it only kept a belief through a failed renewal |
| SingleWriter.DecideAccepts | backend/internal/singlewriter/decide.go:12-55 | exactly when a request is accepted, which complaint wins, and that rejections change nothing |
| SingleWriter.NonceIsLeastFresh | backend/internal/singlewriter/decide.go:44-48 | the nonce granted is the least that is current and unused, up to the top of uint64 |
| SingleWriter.AcceptCharges | backend/internal/singlewriter/decide.go:32-54 | accepting adds the notional to its UTC day, forgets other days and stays under a positive cap |
| SingleWriter.Mem.Authorize | backend/internal/singlewriter/mem.go:22-31 | one key's state moves by the transition, no other key's does |
| Ledger.AuthorizeMeaning | backend/internal/ledger/decide.go:16-48 | all or nothing: a fresh grant charges both budgets, takes the nonce and files the record; replays and rejections move nothing; when each happens |
| Ledger.FreshGrantExactlyWhen | backend/internal/ledger/decide.go:12-47 | exactly when a request is granted afresh, and which complaint it gets otherwise |
| Ledger.Mem.Authorize | backend/internal/ledger/mem.go:40-65 | the four maps together move as the ledger transition says |
| Ledger.Mem.Reconcile | backend/internal/ledger/mem.go:68-84 | one record moves along a permitted edge and is stamped, or nothing changes |
| Ledger.Mem.Orphans | backend/internal/ledger/mem.go:87-100 | the result names every live record older than the cutoff exactly once, in some order |
| Ledger.AddressCapRejectionKeepsKey | backend/internal/ledger/decide.go:36-45 | a request the shared budget rejects leaves the per-key nonce and spend alone, though the single writer would have granted it |
| Ledger.FreshGrantMarks | backend/internal/ledger/decide.go:26-47 | a fresh grant raises its key's fence and nonce marks and no other key's |
| Ledger.UncappedIntentIsGranted | backend/internal/ledger/decide.go:16-48 | without caps a new intent under a current fence is always granted |
| Ledger.AuthorizedExactlyWhen | backend/internal/ledger/decide.go:12-48 | exactly which requests succeed, replays included: digest on file, or fence, clock, notional and room under both caps |
| Ledger.GrantMeans | backend/internal/ledger/decide.go:20-47 | the nonce granted is the one on file, or the least current unused one |
| Ledger.FreshGrantIsStamped | backend/internal/ledger/mem.go:57-63 | a fresh grant stamps its record with the wall time and no other |
| Ledger.SelfReportRefreshes | backend/internal/ledger/reconcile.go:28-31 | reporting the status an intent has is accepted and refreshes its stamp |
| Protocol.SplitBrainSafety | backend/internal/leader/leader.go:46-102 | in every interleaving, with outages, crashes, restarts, late store calls and shutdowns, fresh grants of a key have non-decreasing fences and increasing nonces; with unique holder ids equal fences mean one instance |
| Protocol.StepIsBurst | backend/internal/leader/leader.go:46-75 | an uninterrupted burst of the protocol's events does to belief and row what the leader's step does |
| Protocol.StopIsBurst | backend/internal/leader/leader.go:92-97 | releasing and then quitting do what the leader's shutdown does, the belief standing until the second |
| Protocol.LeadersHoldDifferentEpochs | backend/internal/leader/leader.go:36-40 | two instances that both believe they lead hold different epochs |
| Protocol.StaleFlightIsFenced | backend/internal/singlewriter/decide.go:13-16 | once a key has seen a fence, a request captured under an older epoch gets nothing but replays, however late it arrives |
| Protocol.RunKeeps | backend/cmd/signer/main.go:308-323 | every run keeps the invariant: each epoch in use was minted for its user, and the writer's marks dominate the log |
| Protocol.EveryGrantIsLogged | backend/internal/ledger/mem.go:56-64 | the log the safety theorems speak of names every intent on file exactly once, with its nonce and digest |
| Protocol.ServedAsCaptured | backend/cmd/signer/main.go:308-323 | only a leader takes a request in, under the epoch it believes in, and it reaches the ledger as taken in |
| Protocol.SharedHolderSplitsBrain | backend/internal/lease/decide.go:46-50 | with a shared holder id two instances are granted under one epoch: a concrete run |
| ExactlyOnce.LaterAnswersRepeat | backend/internal/ledger/decide.go:20-25 | after a success every later authorization of the pair repeats the nonce for the same digest and is refused for another; never a second fresh grant |
| ExactlyOnce.ReplayHasOriginal | backend/internal/ledger/decide.go:24 | a replayed success has an earlier fresh grant with the same pair, nonce and digest |
| ExactlyOnce.RecordSticks | backend/internal/ledger/mem.go:56-84 | no run of authorizations and reports drops a record or changes its nonce or digest |
| ExactlyOnce.InsertedReplayIsInvisible | backend/internal/ledger/decide.go:12-15 | a retry inserted anywhere after the grant gets the old nonce and changes no later answer and no state |
| ExactlyOnce.OneIntentPerCloid | backend/cmd/signer/main.go:293-345 | two successes for one pair sign the same bytes, nonce and network, or two intent preimages collide |
| ExactlyOnce.CloidIsNotReused | backend/cmd/signer/main.go:298-306 | short of a collision, a later request under a used cloid succeeds exactly when action bytes and network are the same |
| ExactlyOnce.NonceDrift | backend/internal/singlewriter/decide.go:44-54 | a fresh nonce lies between now and now plus earlier grants of the key, so it is accepted while under 86,400,000 grants were made |
| ExactlyOnce.RegressingClockRunsAhead | backend/internal/singlewriter/decide.go:44-48 | after a clock set back a nonce runs arbitrarily far ahead |
| Nonce.Allocator.Next | backend/internal/nonce/nonce.go:30-39 | the nonce is computed from the key's last one and the clock, and recorded |
| Nonce.NextIsLeastFresh | backend/internal/nonce/nonce.go:27-39 | it is the least nonce above the last that is not in the past, until the top of uint64 |
| Nonce.CurrentNonceInWindow | backend/internal/nonce/nonce.go:41-52 | a current nonce is in the exchange's window exactly when it is less than a day ahead |
| Nonce.WindowMeans | backend/internal/nonce/nonce.go:41-52 | the window in milliseconds: less than two days old and less than a day ahead |
| Nonce.HugeNonceIsOutside | backend/internal/nonce/nonce.go:48-52 | a nonce beyond int64 is never in it |
| Numbers.DayContains | backend/internal/ledger/spend.go:5-27 | a spend day is 86,400,000 milliseconds long |
| Numbers.WrapsModulo | backend/internal/lease/decide.go:46-50 | sums and differences of times wrap modulo 2^64 |
| Spend.SpendTracker.Charge | backend/internal/policy/spend.go:38-64 | one key's entry moves as specified, rolling over its day even when refused |
| Spend.SpendTracker.Spent | backend/internal/policy/spend.go:68-77 | the key's spend on the current day |
| Spend.ChargeMeaning | backend/internal/policy/spend.go:34-64 | exactly when a charge is taken, that it adds exactly its notional or nothing, and stays under the cap |
| Spend.PathsAgree | backend/internal/singlewriter/decide.go:29-54 | over every run with positive time and forward days and fences, the single writer accepts exactly when the tracker does, with the allocator's nonces |
| Spend.OnlyTheTrackerRolls | backend/internal/singlewriter/decide.go:37-43 | a cap refusal leaves the single writer untouched while the tracker moves to the new day |
| Spend.DayRegressDisagrees | backend/internal/policy/spend.go:53-60 | with a day that comes back the two disagree: a concrete run |
| Budgets.BooksCountGrants | backend/internal/ledger/spend.go:19-27 | what the books have on a day is the sum of that day's fresh grants, per key and per owner address |
| Budgets.DailyBudget | backend/internal/ledger/decide.go:26-47 | with forward days and one positive cap, fresh notional on any one day is at most the cap |
| Budgets.ReturningDayOverspends | backend/internal/singlewriter/decide.go:32-36 | a day that comes back starts with a full budget: twice the cap is granted |
| Signer.HandleSignL1 | backend/cmd/signer/main.go:226-366 | one request moves desk and limiters as specified and gets the specified answer; `Consent.SignedExactlyWhen` says what that is |
| Signer.CheckIP | backend/cmd/signer/main.go:243-264 | the grouped source-address limit: conflicts, misconfiguration and missing addresses are refused |
| Signer.Vet | backend/cmd/signer/main.go:270-297 | the checks between limiters and fence in their order; `Consent.ObjectionMeans` says what passes them |
| Signer.ComputeIntent | backend/cmd/signer/main.go:134-184 | the notional of a request, summed over a batch |
| Signer.NotionalIsWorth | backend/cmd/signer/main.go:131-184 | the notional is what the orders in the action built from the same parameters come to; a TWAP has none and is NaN |
| Signer.SameMeaningSameWorth | backend/internal/hl/action.go:88-106 | actions that ask for the same thing come to the same |
| Signer.BadLegIsNotMasked | backend/cmd/signer/main.go:116-129 | a batch is NaN exactly when some leg is, and never negative |
| Signer.OrderNotionalMeans | backend/cmd/signer/main.go:121-129 | a leg is price times size; unreadable, NaN or negative text, or infinity times zero, make it NaN |
| Signer.BatchesAddUp | backend/cmd/signer/main.go:171-174 | two batches together are worth the sum, the empty batch nothing |
| Signer.DecimalReadsBack | backend/cmd/signer/main.go:145 | a coin is named by its asset number's decimal digits, which read back as the number |
| Consent.SignedExactlyWhen | backend/cmd/signer/main.go:226-366 | a request is signed if and only if key, lease, both limiters, parameters, policy, shared cap and ledger all allow it, each read off configuration, limiter and books |
| Consent.SignatureMeans | backend/cmd/signer/main.go:345-364 | what is signed is the action asked for, under the nonce of its first grant or the least current unused one |
| Consent.ObjectionMeans | backend/cmd/signer/main.go:270-297 | exactly what passes between limiters and fence, and which refusal wins |
| Consent.FirstObstacle | backend/cmd/signer/main.go:235-312 | the first obstacle is the answer, with its code and message, and short of the ledger the books do not move |
| Consent.LedgerDecides | backend/cmd/signer/main.go:313-349 | a request that reaches the ledger is signed if admitted, else answered with the ledger's complaint or the failure to sign |
| Consent.ComplaintMeans | backend/cmd/signer/main.go:324-343 | which complaint of the ledger comes first and how it is answered |
| Consent.LimitersKeepTheirToll | backend/cmd/signer/main.go:243-268 | which limiters a request is put to, and that they keep what they took whatever becomes of it |
| Consent.BucketsAreSeparate | backend/cmd/signer/main.go:634 | requests share a bucket of the address limiter exactly when owner and address are the same |
| Consent.UnreadableIsRefused | backend/cmd/signer/main.go:134-184 | an order-carrying request whose parameters do not decode is refused by policy, not taken for worthless |
| Consent.SubmissionMeans | backend/cmd/signer/main.go:278-323 | what is put before the ledger: digest over action and network, caps, owner and fence |
| Serving.KeyBudget | backend/cmd/signer/main.go:269-323 | end to end, the orders a key was freshly granted signatures for on one UTC day come to at most its positive cap |
| Serving.OwnerBudget | backend/cmd/signer/main.go:270-287 | end to end, the orders all keys of an owner address were granted on one UTC day come to at most the positive cap any of them carries |
| Serving.ConflictBlocksNotional | backend/cmd/signer/main.go:274-277 | while an owner's keys disagree on the cap, no request of theirs worth anything gets through |
| Serving.RefusalMovesNothing | backend/cmd/signer/main.go:324-349 | a refused request moves nothing in the ledger unless only signing failed |
| Serving.OneSignedIntent | backend/cmd/signer/main.go:293-355 | any two signatures for one key and cloid are over the same digest, or two intents collide |
| Serving.SignatureIsCharged | backend/cmd/signer/main.go:313-345 | every signature rests on the one fresh grant of its key and cloid, charged what the signed action's orders come to, or two intents collide |
| Serving.SubmittedIsAsked | backend/cmd/signer/main.go:269-323 | what reaches the ledger carries the digest of the action to be signed and the worth of its orders |
| Serving.LimitersStayBounded | backend/cmd/signer/main.go:214-219 | in every run the address limiter keeps half an hour and at most ten thousand buckets, and the key limiter neither evicts nor caps |
| Lifecycle.AdvanceMovesForward | backend/internal/ledger/reconcile.go:18-36 | a report moves a status strictly forward or is ignored, exactly when terminal or not further along |
| Lifecycle.ReconcileMeaning | backend/internal/ledger/mem.go:68-84 | which reports the ledger accepts, what they change, and that nothing else moves |
| Lifecycle.FoldMovesForward | backend/internal/ledger/reconcile.go:18-36 | any list of reports changes a status at most three times and never leaves a terminal state |
| Lifecycle.FoldIsHighest | backend/internal/ledger/reconcile.go:18-36 | a live intent ends at the highest status reported |
| Lifecycle.OrderIrrelevantIffTerminalsAgree | backend/internal/ledger/reconcile.go:18-36 | every permutation of the reports ends alike if and only if the intent was over or the terminal reports agree |
| Reconciler.ReapCasesExclusive | backend/internal/reconciler/reconciler.go:156-169 | the order-status cases exclude each other, so their order does not matter; which strings stand for which status |
| Reconciler.Reconciler.Step | backend/internal/reconciler/reconciler.go:187-285 | whatever the map order, a pass gives every intent the fold of its accounts' reports; a pass cut short by an outage gives each a prefix of them; without outages it completes; a non-leader does nothing |
| Reconciler.Reconciler.PollAll | backend/internal/reconciler/reconciler.go:215-284 | the accounts are polled one after another, up to the first outage |
| Reconciler.Reconciler.ReconcileOne | backend/internal/reconciler/reconciler.go:175-183 | one transition; benign rejections pass, an infrastructure error may strike before or after |
| Reconciler.Reconciler.GroupOf | backend/internal/reconciler/reconciler.go:210-216 | the live intents of one key, each once |
| Reconciler.Reconciler.AnchorOf | backend/internal/reconciler/reconciler.go:217-223 | the fills anchor is the oldest live intent's stamp, bounded by the look-back |
| Reconciler.Reconciler.PollAccount | backend/internal/reconciler/reconciler.go:215-283 | one account's batch and reaping keep every intent at a prefix of its reports |
| Reconciler.Reconciler.AdvanceBatch | backend/internal/reconciler/reconciler.go:236-252 | every cloid in the open orders or fills gets its report once, in any map order |
| Reconciler.Reconciler.ReapOne | backend/internal/reconciler/reconciler.go:262-281 | a live intent in neither is looked up and moved as its order status says |
| Reconciler.Reconciler.ReapGroup | backend/internal/reconciler/reconciler.go:253-282 | every live intent of the key that the batch left out is looked up once |
| Convergence.PassIsDeterministic | backend/internal/reconciler/reconciler.go:244-282 | two completed passes over the same answers end with the same records; no record is created and no nonce or digest altered |
| Convergence.PassOutcome | backend/internal/reconciler/reconciler.go:210-282 | what one pass makes of an intent: terminal stays, resting is open, a fill of the last week fills it, else its order status decides; older fills are not asked for |
| Convergence.SecondPassChangesNothing | backend/internal/reconciler/reconciler.go:187-285 | a second pass over the same answers changes no record |
| Convergence.InterruptedPassCatchesUp | backend/internal/reconciler/reconciler.go:185-285 | a pass cut short and then a full one end as the full one alone, if both hear the same fills |
| Convergence.RetryCatchesUpIff | backend/internal/reconciler/reconciler.go:185-285 | with distinct account keys it does so if and only if no account strands an intent |
| Convergence.CatchesUpExactlyUnlessFillLost | backend/internal/reconciler/reconciler.go:216-223 | for one intent: if and only if it is not live with a lost fill and an order status other than filled |
| Convergence.WhyFillsAreLost | backend/internal/reconciler/reconciler.go:79-85 | a fill is lost to the look-back, or because each older live intent is over or stamped anew |
| Convergence.LookBackLosesFills | backend/internal/reconciler/reconciler.go:79-85 | the look-back alone loses a fill: a concrete case |
| Convergence.PartialFillThenCancelDiverges | backend/internal/reconciler/reconciler.go:253-282 | such a lost fill happens: from the same books and answers one pass ends filled, an interrupted and retried one canceled |
| Msgpack.Encode | backend/internal/hl/msgpack.go:19-25 | the bytes of a supported value, an error for any other |
| Msgpack.Buffer.Write | backend/internal/hl/msgpack.go:27-60 | appends exactly the value's encoding, stopping at the first unsupported part |
| Msgpack.Buffer.WriteAll | backend/internal/hl/msgpack.go:43-47 | appends the elements' encodings in order |
| Msgpack.Buffer.WritePairs | backend/internal/hl/msgpack.go:50-55 | appends keys and values in insertion order |
| Msgpack.Buffer.WriteInt | backend/internal/hl/msgpack.go:79-99 | appends the two's-complement form of the width the range calls for |
| Msgpack.Buffer.WriteUint | backend/internal/hl/msgpack.go:101-117 | appends the unsigned form of the width the range calls for |
| Msgpack.Buffer.WriteStr | backend/internal/hl/msgpack.go:62-77 | appends header and bytes, the length cut to its width |
| Msgpack.Buffer.WriteArrayHeader | backend/internal/hl/msgpack.go:119-126 | appends an array header, the length cut to 16 bits |
| Msgpack.Buffer.WriteMapHeader | backend/internal/hl/msgpack.go:128-135 | appends a map header, the length cut to 16 bits |
| Msgpack.RoundTrip | backend/internal/hl/msgpack.go:19-135 | a decoder written from the MessagePack specification recovers the value and the untouched rest |
| Msgpack.RoundTripExactlyWhenSized | backend/internal/hl/msgpack.go:62-135 | it does so exactly for values whose sizes the headers can announce |
| Msgpack.PrefixFree | backend/internal/hl/msgpack.go:19-60 | equal bytes begin with equal values and continue equally |
| Msgpack.EncodingIsShortest | backend/internal/hl/msgpack.go:62-135 | whatever bytes decode to a value, the encoder needs no more of them |
| Msgpack.GoldenBytes | backend/internal/hl/msgpack_test.go:14-29 | the bytes of the values in the repository's test table |
| Msgpack.OversizedArraysCollide | backend/internal/hl/msgpack.go:119-126 | two different arrays beyond 65535 entries have one encoding |
| Actions.BuildsSupported | backend/internal/hl/action.go:40-152 | every built action can be encoded |
| LongArrays.Unambiguous | backend/internal/hl/msgpack.go:41-56 | values whose only overlong arrays are lists of maps directly in a top-level map are unambiguous before any shorter rest |
| LongArrays.ArrayUnambiguous | backend/internal/hl/msgpack.go:119-126 | a list of maps whose length was cut to 16 bits is recovered from what follows it |
| Actions.BuildIsSelfDelimiting | backend/internal/hl/action.go:20-152 | every built action with strings under 2^32 bytes is such a value, its lists of any length |
| Actions.SameBytesSameMeaning | backend/internal/hl/action.go:20-152 | for strings under 2^32 bytes and lists of any length, equal action bytes mean the same kind of action with the same fields, a modify's unused oid apart; `WireFormat.BytesReadByName` says what each field is |
| WireFormat.BytesReadByName | backend/internal/hl/action.go:20-152 | the signed bytes of each of the ten kinds, decoded and read by field name, give every field of the action, names in the exchange's order, optional fields exactly when given |
| WireFormat.OrderReads | backend/internal/hl/action.go:20-29 | an order says a, b, p, s, r and t.limit.tif, and c exactly when it has a cloid |
| WireFormat.BuildReads | backend/internal/hl/action.go:40-152 | the kind comes first under type, the body after it, and no other name is there |
| WireFormat.ReadingDetermines | backend/internal/hl/action.go:20-152 | what is read leaves nothing open: it fits one action only, up to an unused oid |
| L1Hash.L1ActionHash | backend/internal/hl/hash.go:12-35 | the hash of the specified preimage, or an error if the action cannot be encoded |
| L1Hash.PreimageUnambiguous | backend/internal/hl/hash.go:12-29 | for self-delimiting values and a 20-byte or absent vault the preimage determines action, nonce, vault and expiry |
| L1Hash.ActionPreimageUnambiguous | backend/internal/hl/hash.go:12-29 | for built actions with strings under 2^32 bytes and a 20-byte or absent vault it determines what is asked for, nonce, vault and expiry |
| L1Hash.OddVaultIsAmbiguous | backend/internal/hl/hash.go:20-29 | any longer vault can stand for a vault and an expiry |
| L1Hash.PreimageReadsBack | backend/internal/hl/hash.go:17-29 | by position: action, eight-byte nonce, marker and vault, marker and eight-byte expiry |
| L1Hash.MainnetSignsOverA | backend/internal/hl/eip712.go:39-45 | mainnet signs over "a", testnet over "b", then the action's hash, under the agent type |
| L1Hash.DomainReadsBack | backend/internal/hl/eip712.go:31-47 | the digest is over 0x1901, the exchange domain of version 1, chain 1337 and address zero, and the agent struct |
| L1Hash.SignedDigestBindsIntent | backend/internal/hl/eip712.go:27-47 | for self-delimiting values equal signed digests mean the same action, nonce and network, or a named pair collides |
| L1Hash.IntentPreimageUnambiguous | backend/cmd/signer/main.go:298-306 | the ledger's digest preimage determines action and network |
| UserSigned.UserSignedTypeString | backend/internal/hl/usersigned.go:64-78 | the loop writes EIP-712's encodeType |
| UserSigned.UserSignedDigest | backend/internal/hl/usersigned.go:82-107 | the digest over domain, type and field words; a missing or malformed field is an error |
| UserSigned.TypeStringUnambiguous | backend/internal/hl/usersigned.go:64-78 | for delimiter-free names the type string determines primary type and field list |
| UserSigned.DelimitersSmuggleFields | backend/internal/hl/usersigned.go:64-78 | with a delimiter in a name it does not |
| UserSigned.FieldUnambiguous | backend/internal/hl/usersigned.go:18-61 | a field's word determines its value, an address up to case and prefix, or two strings collide |
| UserSigned.DigestBindsMessage | backend/internal/hl/usersigned.go:82-107 | equal digests mean the same chain id, type and field values, or a named pair collides |
| UserSigned.TablesAreClean | backend/internal/hl/usersigned.go:118-257 | the shipped field tables have delimiter-free names |
| UserSigned.TypeStringMeans | backend/internal/hl/usersigned.go:64-78 | the type string is the primary type and, in brackets, type and name of each field, comma-separated |
| UserSigned.ApproveAgentTypeString | backend/internal/hl/usersigned_test.go:50-59 | the type string of an agent approval, spelled out |
| UserSigned.HexReadsBack | backend/internal/hl/usersigned.go:33-40 | which texts are hex, and that the bytes read spell them in lower case |
| UserSigned.BareMeans | backend/internal/hl/usersigned.go:33 | an address counts in lower case and without one 0x or 0X in front |
| UserSigned.FieldReadsBack | backend/internal/hl/usersigned.go:18-61 | which values each field type takes, and what the 32-byte word says of the value |
| UserSigned.WordsReadBack | backend/internal/hl/usersigned.go:86-96 | there are words exactly when every field is there and well-formed, and word i is field i's |
| UserSigned.DigestReadsBack | backend/internal/hl/usersigned.go:97-107 | the digest is over 0x1901, the transaction domain with its chain id, and the struct opening with the hashed type string |
| UserSigned.KindsDoNotMix | backend/internal/hl/usersigned.go:126-276 | digests of two kinds of user-signed action agree only if a named pair collides |
| Fills.FillsByCloidSince | backend/internal/hlinfo/hlinfo.go:157-207 | the result sums, per cloid, exactly the fills that paging reaches, each once, whatever the order they are summarized in; `Fills.AccOfOne` and `Fills.AccOfConcat` say what the sums are |
| Fills.TakePage | backend/internal/hlinfo/hlinfo.go:171-196 | a page adds its unseen fills to the sums and moves the cursor to its last time |
| Fills.OnePage | backend/internal/hlinfo/hlinfo.go:163-196 | one query: paging goes on exactly if the page held something new |
| Fills.TakePages | backend/internal/hlinfo/hlinfo.go:158-199 | after at most fifty pages the sums are those of the fills reached |
| Fills.Summarize | backend/internal/hlinfo/hlinfo.go:200-207 | every cloid's sums become its fill, in whatever order they are visited |
| Fills.CompleteUnlessCrowded | backend/internal/hlinfo/hlinfo.go:150-157 | paging that stopped is complete if and only if no millisecond fills a page with more to come; otherwise no number of pages helps |
| Fills.RoomyIsNotCrowded | backend/internal/hlinfo/hlinfo.go:150-157 | fewer fills in every millisecond than a page holds means none is crowded |
| Fills.SettleStops | backend/internal/hlinfo/hlinfo.go:162-199 | without the page limit paging ends, where the limited loop would have stopped too |
| Fills.FiftyPagesSuffice | backend/internal/hlinfo/hlinfo.go:145-148 | with at most m fills a millisecond, fifty pages of k take up to 50 (k - m) fills |
| Fills.WeightedPrice | backend/internal/hlinfo/hlinfo.go:200-206 | the reported price re-multiplies to the exact sum and lies between the lowest and highest price paid |
| Fills.AccOfOne | backend/internal/hlinfo/hlinfo.go:182-191 | one fill counts its own size, profit and cost for its cloid, and nothing for others |
| Fills.AccOfConcat | backend/internal/hlinfo/hlinfo.go:186-191 | the sums over two lists together are the sums of the sums, figure by figure |
| Fills.OrderIsIrrelevant | backend/internal/hlinfo/hlinfo.go:170-192 | the order in which fills come does not matter |
| Fills.CloidsAreTheMentioned | backend/internal/hlinfo/hlinfo.go:182-191 | the cloids answered for are those some fill carries |
| Fills.FillOfMeans | backend/internal/hlinfo/hlinfo.go:200-206 | summed size and profit are reported as they are, the price spreads the summed cost over the size, zero without size |
| Fills.TwoFillsAddUp | backend/internal/hlinfo/hlinfo.go:186-206 | 3 at 100 and 1 at 110 come to 4 at 102.5: a concrete case |
| Fills.FiftyPagesAtMost | backend/internal/hlinfo/hlinfo.go:145-148 | fifty pages never bring more than fifty times a page |
| RateLimit.Limiter.AllowCall | backend/internal/ratelimit/ratelimit.go:79-129 | one call moves buckets and counter and answers as specified; `RateLimit.AllowMeans` says in full what that is |
| RateLimit.Limiter.constructor | backend/internal/ratelimit/ratelimit.go:41-57 | no bounds for non-positive settings, and no buckets |
| RateLimit.Limiter.ReapExpired | backend/internal/ratelimit/ratelimit.go:59-68 | exactly the buckets idle too long are dropped, in whatever order they are visited |
| RateLimit.GateMeans | backend/internal/ratelimit/ratelimit.go:80-93 | without a positive finite rate and burst nothing changes: rate zero is let through, all else denied |
| RateLimit.AllowMeans | backend/internal/ratelimit/ratelimit.go:95-129 | one call in full: who is evicted and when, who stays untouched, the key's own bucket and the answer |
| RateLimit.TooIdleMeans | backend/internal/ratelimit/ratelimit.go:59-68 | idle too long means untouched for more than the idle time |
| RateLimit.NewKeyDeniedExactlyWhen | backend/internal/ratelimit/ratelimit.go:105-112 | a new key with burst at least one is denied exactly when the map is full of buckets none of which is idle too long; else it starts with a full bucket less a token |
| RateLimit.HeldKeyHasRoom | backend/internal/ratelimit/ratelimit.go:104-129 | a key that has its bucket is answered as by a limiter without a cap |
| RateLimit.IdleBucketMakesRoom | backend/internal/ratelimit/ratelimit.go:106-107 | a full map of idle buckets lets a new key in between sweeps: a concrete case |
| RateLimit.FewCallersAlwaysFit | backend/internal/ratelimit/ratelimit.go:105-111 | with no more callers than buckets there is always room |
| RateLimit.AllowSpends | backend/internal/ratelimit/ratelimit.go:113-128 | under a forward clock a call is granted exactly if there is room and a token on hand, and takes just that token, evictions included |
| RateLimit.SecondsBring | backend/internal/ratelimit/ratelimit.go:114-115 | the rate is in tokens per second |
| RateLimit.EvictionIsInvisible | backend/internal/ratelimit/ratelimit.go:59-129 | with a forward clock, idle time enough to refill, and room for the key whenever it calls, a limiter that evicts and caps answers every call as one that does neither |
| RateLimit.NeverOverCap | backend/internal/ratelimit/ratelimit.go:102-113 | a capped limiter never holds more buckets than its cap, however the clock moves |
| RateLimit.GrantsBounded | backend/internal/ratelimit/ratelimit.go:79-129 | between t0 and t1 a key gets at most burst + rate (t1 - t0) / 1000 grants, under any cap and under eviction that leaves time to refill |
| RateLimit.SpacedIsNeverDenied | backend/internal/ratelimit/ratelimit.go:79-129 | calls one token apart with a burst of at least one are denied exactly when there is no room for the bucket, whatever is evicted |
| RateLimit.RegressingClockIsUnbounded | backend/internal/ratelimit/ratelimit.go:114-121 | a clock seesawing within one second gets any number of grants at one token a second |
| Policy.AllowedMeans | backend/internal/policy/policy.go:39-62 | exactly what the gate allows; nothing without a policy |
| Policy.LimitsAreOrdered | backend/internal/policy/store.go:15-34 | limits are totally ordered with zero, meaning none, on top; nothing is at most NaN; `Policy.LimitAtMostMeans` says which way the order runs |
| Policy.LimitAtMostMeans | backend/internal/policy/store.go:15-26 | a non-negative limit is at most another exactly when it admits no amount the other turns away; only zero and infinity, which admit all, are told apart |
| Policy.AtMostMeans | backend/internal/policy/store.go:28-34 | the same for both shared budgets, and that budgets differ exactly when one turns away what the other admits |
| Policy.FlaggedExactlyWhen | backend/internal/policy/store.go:105-131 | among numeric budgets a key is flagged exactly when some sibling's budget turns away what its own admits |
| Policy.TheLaxKeyIsFlagged | backend/internal/policy/store.go:24 | of rates 1 and 5 under one owner the key with 5 is flagged: a concrete case |
| Policy.Store.Set | backend/internal/policy/store.go:135-147 | the table gains the key's configuration and all four flag sets agree with the table again |
| Policy.Store.Delete | backend/internal/policy/store.go:150-158 | the table loses the key and all four flag sets agree with the table again |
| Policy.Store.RecomputeOwnerConflicts | backend/internal/policy/store.go:59-132 | the owner's and its keys' flags come up to date, no others move |
| Policy.Store.Collect | backend/internal/policy/store.go:71-95 | the owner's keys, each once, and whether any differs from the first visited |
| Policy.Store.Compare | backend/internal/policy/store.go:111-121 | whether some sibling is tighter or incomparable, the early exit included |
| Policy.Store.RefreshKeys | backend/internal/policy/store.go:107-131 | the key flags of the owner's keys come up to date, no other key's move |
| Policy.Store.Get | backend/internal/policy/store.go:161-165 | a key's configuration, or the one that allows nothing |
| Policy.Store.OwnerConflicts | backend/internal/policy/store.go:167-177 | the owner flags say whether two of its keys differ |
| Policy.Store.KeyConflicts | backend/internal/policy/store.go:179-189 | the key flags say whether some sibling is strictly tighter or incomparable; `Policy.FlaggedExactlyWhen` says so by what gets through |
| Policy.FlagsDependOnTableOnly | backend/internal/policy/store.go:71-131 | the flags are a function of the configurations: neither map order nor history shows |
| Policy.FirstComparisonSuffices | backend/internal/policy/store.go:77-95 | comparing each key with the first one visited finds a conflict exactly when two keys differ |
| Policy.OwnerFlagIffKeyFlag | backend/internal/policy/store.go:100-131 | an owner flag holds iff some key of the owner is flagged, except exactly for a lone key with a NaN budget |
| Policy.SomeKeyUnflagged | backend/internal/policy/store.go:32-34 | for the address cap some key of an owner is never flagged, exactly when no cap is NaN |
| Policy.AllKeysCanBeFlagged | backend/internal/policy/store.go:28-30 | for the two-part IP budget all keys of an owner can be flagged |
| Address.OwnerKeyIdempotent | backend/internal/policy/store.go:13 | taking the budget key of a budget key changes nothing |
| Address.NormalizeIdempotent | backend/cmd/signer/main.go:605-619 | a valid address normalizes to its own budget key |
| Address.NormalizeExactlyWhen | backend/cmd/signer/main.go:605-619 | exactly which texts are addresses: 0x and forty hex digits in either case, between white space |
| Address.TrimSpaceMeans | backend/internal/policy/store.go:13 | trimming takes off all white space at both ends and nothing else |
| Address.OwnersAreGroupedByCase | backend/internal/policy/store.go:13 | owners share a budget key exactly when they differ in letter case and surrounding white space only |
| WsShard.Allocator.constructor | backend/internal/wsshard/wsshard.go:43-56 | an invalid configuration gives a pool that admits nobody, a valid one an empty pool |
| WsShard.Allocator.AdmitUser | backend/internal/wsshard/wsshard.go:75-105 | admission is idempotent, least-loaded first, and counts refusals of a full pool |
| WsShard.Allocator.LeastLoaded | backend/internal/wsshard/wsshard.go:88-96 | the scan over the load array finds the specified shard, or that there is none |
| WsShard.Allocator.ReleaseUser | backend/internal/wsshard/wsshard.go:110-124 | a release takes the user off the books and frees its slot |
| WsShard.Allocator.Assignment | backend/internal/wsshard/wsshard.go:128-140 | the user's shard without any change |
| WsShard.Allocator.Snapshot | backend/internal/wsshard/wsshard.go:143-158 | the counters, with free slots never negative and loads summing to the users admitted |
| WsShard.BestIsLeastLoaded | backend/internal/wsshard/wsshard.go:70-96 | the shard chosen has room, none is less loaded, none before it is equally loaded; none is chosen exactly when all are full |
| WsShard.AdmitMeans | backend/internal/wsshard/wsshard.go:75-105 | every success answers the shard on the books; who is admitted, where, and what a refusal counts |
| WsShard.InvalidIsDenied | backend/internal/wsshard/wsshard.go:76-84 | no valid address or no valid configuration: turned away, nothing changed |
| WsShard.ReleaseMeans | backend/internal/wsshard/wsshard.go:110-124 | who is on the books is taken off and its shard freed, anyone else changes nothing |
| WsShard.RunKeeps | backend/internal/wsshard/wsshard.go:75-124 | after every run loads count the users assigned, stay within the limit and sum to the users admitted |
| WsShard.DeniedIffFull | backend/internal/wsshard/wsshard.go:97-100 | a valid new user is turned away exactly when the capacity is used up |
| WsShard.ReleaseUndoesAdmit | backend/internal/wsshard/wsshard.go:102-124 | releasing a user just admitted puts the pool back as it was |
| WsShard.StaysEven | backend/internal/wsshard/wsshard.go:88-104 | without releases loads differ by at most one |

## Left out

- HTTP serving, JSON decoding, environment configuration, shutdown, logging, metrics and tracing: plumbing around the decisions modelled. Requests arrive decoded; the parser of decimal numbers is an arbitrary function whose result may be no number.
- secp256k1 signing, Keccak and SHA-256 internals, key generation, sealing, keystore and vault: hashes are arbitrary functions, and whether signing succeeds is an input.
- The Postgres stores (`backend/internal/*/pg`): `Mem` stands for their transactions, each store operation being atomic.
- Float rounding: finite floats are exact reals. NaN, the infinities and their comparisons are modelled. Fills use reals only, so an infinite or NaN price in a fill is not modelled.
- Clocks: every reading is an argument, and each call takes its own.
- The JSON side of building an action from kind and parameters (`backend/internal/hl/digest.go:10-167`), and chain-id parsing (`backend/internal/hl/usersigned.go:141-147`): the decoded action and the chain id are inputs.
- The exchange beyond its answers: snapshots for the reconciler, pages of the earliest fills for paging.
- Address.OwnerKeyIdempotent: lower-casing is ASCII, where the services lower-case all of Unicode; no non-ASCII letter lower-cases to a hex digit, so address validation is unaffected, but the grouping of owner strings that are not addresses is.
- The ticker loops of the leader and the reconciler: runs are arbitrary sequences of their steps. `FillsByCloid` without paging, `UserSigned` per-kind wrappers, reconcile, orphans and key-provisioning endpoints: they add nothing hard.
- Everything under `mobile/`, `docs/`, `workers/` and the TypeScript server files.
- Protocol.SplitBrainSafety: runs have fewer than 2^63 events.
- Reconciler.Reconciler.Step: the answers of one pass are fixed in advance, one snapshot an account; the anchor is an unbounded integer.
- RateLimit.EvictionIsInvisible: idle time must refill a whole bucket, which is sufficient; the weakest condition depends on the fractions left in buckets and is not given.
- WireFormat.BytesReadByName: lists have fewer than 65536 entries, the most a decoder can be told of; `Actions.SameBytesSameMeaning` covers lists of any length.
- Convergence.InterruptedPassCatchesUp: assumes equal fills answers, for accounts that may share keys; `Convergence.RetryCatchesUpIff` gives the exact condition for distinct keys. Both assume stamps before the year 2096 cutoff.
- WsShard.Allocator.Snapshot: the capacity product is an unbounded integer.
- Policy.Store.Set: flag maps that only ever hold `true` are modelled as sets of their keys.
