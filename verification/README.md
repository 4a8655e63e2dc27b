# A verified model of reqwest's stateful core

reqwest is an HTTP client. Most of it is wiring between other crates, but four parts carry logic of
their own that has to hold over whole runs. This project models those parts in Dafny and proves what
they are for.

**The HTTP/3 connection pool.** Many tasks ask one mutex-guarded pool for a client. `Pool.dfy` has the
pool, the connecting lock and the watch channel as objects, each method proved against a function
on pool values; `H3Client.dfy` runs the program of one task over them, with other tasks acting in between. `PoolProtocol.dfy` takes the same
functions as the atomic steps of any number of tasks, with cancellation at every suspension point.
`PoolWakeups.dfy`, `PoolFreshness.dfy` and `PoolContents.dfy` hold the invariants of every interleaving.

**Retries and redirects.** `CivilDate.dfy`, `RetryAfter.dfy`, `Backoff.dfy` and `Classifiers.dfy` are the
arithmetic and the decisions; `Budgets.dfy` and `RetryPolicy.dfy` the state they drive;
`SharedBudget.dfy` any number of calls over the same budgets, a lookup and the use of what it found being two steps; `Redirect.dfy` and `RequestRun.dfy` one
request through redirects on the outside and retries on the inside.

**Multipart forms.** `FieldNames.dfy` has the two escaping schemes and what undoes them, `Multipart.dfy` the bytes
of a form, its header cache, its predicted length and the asynchronous stream, `MultipartReader.dfy` the blocking
reader. The other end is there too: `Dispositions.dfy` reads names, leniently or strictly, `Receiver.dfy` cuts a
header block into lines first, and `FormSplitting.dfy` takes a whole form apart at its delimiters.

**Bodies.** `BodyPump.dfy` is the loop that feeds a blocking body to the connection, composed with the
multipart reader. `ResponseBodies.dfy` is the nesting of read timeout and total timeout.

Conventions: a byte is a character below 256, instants and durations are nanoseconds, and fixed widths
are written out where they matter (`u64` sums, the `u128` product, truncating division). Clocks, random
numbers, replies of servers, what readers yield, and user closures are parameters or arbitrary choices.

Five results are conditions rather than plain guarantees:

- Not every name can be read back from the headers of its part by a receiver that cuts them into lines and takes
  plain names and file names as quoted-strings and `name*` as an extended value. With the path-segment set, which is
  the default, a backslash stays bare in a plain name, where it escapes what follows, and a semicolon stays bare in
  an extended one, which it ends. Without percent-encoding a quote ends the name and a line break the header. A
  receiver that takes no more bytes in a quoted-string than section 5.6.4 of RFC 9110 allows refuses control bytes
  other than tab, in file names in every mode. `Dispositions.DispositionReadBack`, for the value of the header, and
  `Receiver.HeaderBlockReadBack`, for the block, say for every mode and both kinds of receiver exactly which names
  are read back; with the `attr-char` set that is every field name. `Dispositions.LostNames`,
  `Dispositions.LostFileName` and `Receiver.BrokenName` have a name for each failure.
- Nothing keeps the boundary out of the parts. `FormSplitting.FormReadBack` says exactly which forms a receiver takes
  apart into the header blocks and contents they were put together from, `FormSplitting.DelimiterInContent` has
  a part that spoils any form.
- The product inside `jitter` fits 128 bits exactly up to a doubled base of 2^65 + 3 nanoseconds
  (`Backoff.AttemptFitsIff`), although a comment in the source takes the cap on doublings to keep it from
  overflowing. The first retry overflows it for a base of over a thousand years (`Backoff.LongestBaseOverflows`),
  attempt 20 for one of 35,185 seconds (`Backoff.LongBaseOverflows`); at any but the first, the attempt before
  slept for centuries (`Backoff.OverflowComesLate`). Beyond the limit, a build with overflow checks panics; with
  unchecked arithmetic, which is what the model has, the product wraps, and the bounds on the delay still hold
  (`Backoff.JitterBounds`).
- A second `compute_length` appends the headers to the cache again. `MultipartReader.SecondScan` says when
  the cache still agrees with the fields, and `MultipartReader.SecondScanSpoils` gives a form for which it
  does not. No caller in the repository scans twice.
- `send_future` checks the declared length only between chunks. No sequence of reads makes it send too much
  exactly when the declared length is at most 8192 bytes or the reader has no more than declared
  (`BodyPump.NeverTooMuchIff`), given only that `reserve` makes room for at least what it is asked for. If it
  makes exactly that much room, declared lengths that are multiples of 8192 are kept as well
  (`BodyPump.TooMuchInChunksIff`). `BodyPump.OneByteTooMany` has a run that exceeds a declared length of 8193.

## Model

| member | source | states |
|---|---|---|
| `CivilDate.EraIsFloorDivision` | src/retry.rs:837-839 | Subtracting 399 from a negative year makes truncating division floor division |
| `CivilDate.MarchYearLength` | src/retry.rs:837-845 | The start of the March year moves by 366 days over a leap year and 365 over others, for every year, negative ones included |
| `CivilDate.DaysCountsEveryDay` | src/retry.rs:837-845 | The closed formula grows by exactly one from each valid date to the next, over month ends, leap days, centuries and eras |
| `CivilDate.DaysOrderEmbedding` | src/retry.rs:837-845 | Day numbers are ordered as the dates are, and no two valid dates share one |
| `CivilDate.DaysInvertsWalking` | src/retry.rs:837-845 | Walking n days from 1970-01-01 on the calendar and applying the formula gives n |
| `CivilDate.FourDigitYears` | src/retry.rs:837-845 | The first 2,932,897 days from the epoch are exactly those of the years 1970 to 9999 |
| `RetryAfter.ParserReadsPrintedFields` | src/retry.rs:787-824 | For any weekday name and any separators the parser returns the printed fields, and refuses in-range fields only for a moment before the epoch |
| `RetryAfter.AcceptedIsPrinted` | src/retry.rs:787-832 | Whatever string is accepted is a printed date with every field in range, and the value is 86,400 times the day number plus the time of day |
| `RetryAfter.DateRoundTrip` | src/retry.rs:787-845 | For every second from 1970 to the end of 9999, printing as IMF-fixdate and parsing returns that second |
| `RetryAfter.AcceptedHeader` | src/retry.rs:771-783 | Any header that is accepted has blanks around a number, which is the seconds to wait, or around a printed date not yet passed, up to which it says to wait |
| `RetryAfter.DelaySecondsExactly` | src/retry.rs:771-778 | Digits, with or without a plus sign and blanks, mean that many seconds, and nothing if they do not fit a `u64` |
| `RetryAfter.DateTextIsDate` | src/retry.rs:771-782 | Any other visible text is taken for a date |
| `RetryAfter.ExampleDate` | src/retry.rs:784-824 | The example of the RFC is read as, and written for, its second |
| `RetryAfter.DelaySecondsRoundTrip` | src/retry.rs:771-778 | A decimal `u64` with any blanks around it means that many seconds |
| `RetryAfter.DateHeaderRoundTrip` | src/retry.rs:771-782 | A header with a printed date means the difference to the wall clock, and nothing once it has passed |
| `Backoff.ProductFitsIff` | src/retry.rs:687-691 | The `u128` product overflows for no random value exactly when half the delay is at most 2^64 + 1 nanoseconds |
| `Backoff.AttemptFitsIff` | src/retry.rs:661-691 | The same over base and attempt: exactly when base * 2^min(attempt, 20) is at most 2^65 + 3 nanoseconds |
| `Backoff.LongBaseOverflows` | src/retry.rs:646-691 | From attempt 20 on, a base in whole seconds overflows the product for some random value exactly from 35,185 on |
| `Backoff.LongestBaseOverflows` | src/retry.rs:661-691 | The longest base overflows it at the first retry |
| `Backoff.OverflowComesLate` | src/retry.rs:661-691 | If an attempt after the first overflows, the one before it slept for at least 2^63 nanoseconds |
| `Backoff.JitterExact` | src/retry.rs:687-693 | Where the product fits, the cast to `u64` loses nothing and the result is in the second half of the interval |
| `Backoff.JitterBounds` | src/retry.rs:687-693 | The jittered delay is between half the delay and the delay, also where the product wraps |
| `Backoff.DelayBounds` | src/retry.rs:661-673 | Attempt k waits between half of base * 2^min(k, 20) and all of it, up to the largest duration |
| `Backoff.DelayExactly` | src/retry.rs:661-693 | Where nothing overflows, an exponential delay is half the interval and of the other half the part that the random value is of its range |
| `Backoff.CustomIsObeyed` | src/retry.rs:671 | A custom backoff is asked for the attempt, and its answer is the delay |
| `Backoff.TotalDelayBound` | src/retry.rs:646-673 | The first n delays sum to at most base * (2^n - 1) for n up to 21, and base * 2^20 more for each later one |
| `Classifiers.OrConcatenates` | src/retry.rs:1000-1018 | `or` concatenates conditions, has `Never` as unit and builds no nested `Any` |
| `Classifiers.AnyStopsAtFirstMatch` | src/retry.rs:1020-1052 | A list of conditions decides by its first match, and consults none after it |
| `Classifiers.BuildKeepsConditions` | src/retry.rs:349-397 | Any chain of builder calls keeps exactly the conditions added, in order, without nesting |
| `Classifiers.BuilderDecides` | src/retry.rs:349-397 | Any chain of builder calls retries exactly when one of its conditions holds, evaluated in insertion order up to the first match |
| `Classifiers.BuilderMeans` | src/retry.rs:349-397 | A policy retries exactly what one of its builder calls asks for, by status or by function, or, for the standard one, 429 and 503 for idempotent requests and those with an idempotency key |
| `Budgets.ForgetsOnlyWhenFull` | src/retry.rs:725-752 | A lookup leaves the budgets of others in place, unless 512 of them are there and the authority is new; a new budget has seen nothing |
| `Budgets.HostBudgets.Get` | src/retry.rs:725-752 | Returns the budget of the authority, forgetting all others only when a 513th authority arrives |
| `Budgets.HostBudgets.Deposit` | src/retry.rs:492-498 | Changes the record of one budget, and the ledger follows |
| `Budgets.HostBudgets.Withdraw` | src/retry.rs:514-521 | Counts a withdrawal exactly when it is granted |
| `Budgets.GetKeepsSound` | src/retry.rs:725-752 | After any lookup there are at most 512 authorities and no two share a budget |
| `RetryPolicy.Policy.CloneRequest` | src/retry.rs:537-554 | A clone keeps all that `retry` looks at; with one, `retry` cannot hit the limit, and where only the limit denied one, `retry` could only hit it |
| `RetryPolicy.Policy.Decide` | src/retry.rs:432-512 | For any response and header: an application retry waits for the larger of backoff and `Retry-After`, given up for the deadline exactly if that would reach it; transient transport failures come first and wait for nothing; then the classifier, failures included; then the limit |
| `RetryPolicy.Policy.Retry` | src/retry.rs:486-535 | The same, and a retry goes ahead exactly if ready and, for application retries with a budget, granted; only then it counts; and what the budgets have seen |
| `SharedBudget.BudgetConservation` | src/retry.rs:486-535 | In every interleaving of lookups and uses by all calls sharing a policy, withdrawals equal application retries, and deposits made or owed equal successes; nothing else touches a budget |
| `SharedBudget.SameBudgetBetweenResets` | src/retry.rs:725-752 | Until the map is emptied an authority keeps the budget object it has |
| `SharedBudget.HostsAreIsolated` | src/retry.rs:703-752 | Whatever the other authorities do, resets between a lookup and its use included, the tokens of a budget stay as they are and no one else gets it |
| `SharedBudget.UseAfterOthers` | src/retry.rs:725-752 | A call uses the budget it looked up, and no other, however other calls have changed the map meanwhile |
| `SharedBudget.UndisturbedIsRetry` | src/retry.rs:486-535 | A lookup and its use with nothing in between are one consultation of `retry` |
| `Redirect.TowerRedirectPolicy.Redirect` | src/redirect.rs:309-337 | Under a limit, followed exactly if fewer hops than the limit came before and the URL is HTTP, or HTTPS if only that is allowed; a custom policy is asked about all URLs so far and obeyed, but for the scheme; a followed hop adds the previous URL to the history |
| `Redirect.TowerRedirectPolicy.OnRequest` | src/redirect.rs:339-362 | Puts the deadline back on a request without one; takes the five credential headers off exactly if host, scheme or port differ from the last URL; writes a referer without credentials and fragment, and none from HTTPS to HTTP; leaves the other headers alone |
| `RequestRun.RunKeepsInv` | src/retry.rs:486-554 | The invariant of every run of one request: deadline carried, counters bounded, history a prefix of the URLs requested |
| `RequestRun.RequestTerminates` | src/redirect.rs:131-144 | At most (R + 1)(K + 1) sends and R redirects, the history is the list of hops, application retries at most total retries at most K |
| `RequestRun.DeadlineSafety` | src/retry.rs:432-460 | Through redirects and retries each consultation sees the first deadline, waits for the larger of backoff and the `Retry-After` of its response, is given up for the deadline exactly if that would reach it, and never hits the limit inside `retry` |
| `RequestRun.HopsAreAllowed` | src/redirect.rs:317-332 | Whatever the policy, no hop after the first is to a URL that is not HTTP, or not HTTPS if only that is allowed |
| `RequestRun.SensitiveHeadersStay` | src/redirect.rs:239-252 | In every run, no request, retries included, takes one of the five credential headers to a URL of another host, scheme or port than that of the URL that redirected to it |
| `RequestRun.SendsAreAccounted` | src/retry.rs:486-554 | Each send is the first of a hop or the outcome of a granted retry, and each granted retry is sent |
| `RequestRun.GoesOn` | src/redirect.rs:309-350 | How any run goes on with the next reply: asked exactly if a clone was wanted, then the same request again, or the redirect followed, or done |
| `RequestRun.WorstCase` | src/redirect.rs:131-144 | Where a request is after n replies of a server that always redirects, seen by a policy that always retries |
| `RequestRun.BoundIsReached` | src/async_impl/client.rs:1033-1046 | For all R and K some request makes exactly (R + 1)(K + 1) sends |
| `Pool.ConnectingWaiter.Receive` | src/async_impl/h3_client/pool.rs:77-85 | A value counts even when its sender is gone; no value and no sender is `None`; else it pends |
| `Pool.ConnectingLock.Forget` | src/async_impl/h3_client/pool.rs:60-64 | Takes the key with the mutex held, and the drop that follows does not enter the mutex |
| `Pool.ConnectingLock.Drop` | src/async_impl/h3_client/pool.rs:67-75 | A lock not forgotten frees its key, if it is there, and closes its channel without a value |
| `Pool.PoolInner.Connecting` | src/async_impl/h3_client/pool.rs:100-112 | Subscribes to the attempt for the key if there is one, else registers one and grants the lock |
| `Pool.PoolInner.TryPool` | src/async_impl/h3_client/pool.rs:114-139 | Hands out and touches the entry exactly if it is open and idle for no longer than the timeout; otherwise there is none afterwards; the other entries stay |
| `Pool.PoolInner.NewConnection` | src/async_impl/h3_client/pool.rs:156-178 | Frees the key, gives the client to the waiters if there are any, and stores it as idle, overwriting |
| `H3Client.Client.GetPooledClient` | src/async_impl/h3_client/mod.rs:35-60 | One task from start to end or to its wait, any steps of other tasks in between: pooled client, wait on the attempt in progress, own connection published, or failure with the lock dropped; its attempt is still the one for its key when it is done connecting |
| `PoolWakeups.RunKeepsInv` | src/async_impl/h3_client/mod.rs:35-60 | The invariant on channels, tasks, locks and subscriptions holds in every interleaving |
| `PoolWakeups.LockDiscipline` | src/async_impl/h3_client/pool.rs:141-160 | The keys of `connecting` are exactly those of live locks, one each, so the `unreachable!` is unreachable |
| `PoolWakeups.NoLostWakeup` | src/async_impl/h3_client/pool.rs:67-112 | An unresolved waiter has its sender in `connecting` under its key and exactly one lock holder; a resolved one finds what the attempt came to |
| `PoolWakeups.OneAttemptOneOutcome` | src/async_impl/h3_client/pool.rs:141-178 | All tasks served through one attempt hold the same client, and none of them is told it failed |
| `PoolWakeups.AttemptSucceeds` | src/async_impl/h3_client/pool.rs:141-178 | On success the holder, each subscribed waiter and the idle entry get one and the same client |
| `PoolWakeups.AttemptIsAbandoned` | src/async_impl/h3_client/pool.rs:67-75 | On failure or cancellation the key is free again and each subscribed waiter gets nothing |
| `PoolWakeups.FourStepsPerTask` | src/async_impl/h3_client/mod.rs:35-60 | In every run the tasks take at most four steps each |
| `PoolWakeups.FourStepsAreTaken` | src/async_impl/h3_client/mod.rs:35-60 | A task that gets to connect takes four |
| `PoolWakeups.SomeoneCanMove` | src/async_impl/h3_client/mod.rs:35-60 | While a task is unfinished, it or the holder of the lock it waits for can take a step |
| `PoolFreshness.HandOutsAreFresh` | src/async_impl/h3_client/pool.rs:114-139 | In every run each client handed out was never reported closed or removed before, and was last touched at most the idle timeout ago |
| `PoolFreshness.TryPoolIsFresh` | src/async_impl/h3_client/pool.rs:114-139 | The same for the next `try_pool` in any reachable state; a refused connection is removed and never handed out again |
| `PoolFreshness.OverwriteKeeps` | src/async_impl/h3_client/pool.rs:187-195 | An insertion over an existing entry keeps freshness: the replaced connection counts as removed |
| `PoolContents.RunHoldsKept` | src/async_impl/h3_client/pool.rs:114-195 | In every run the pool holds exactly the connections last inserted or handed out under their keys and not removed since |
| `PoolContents.TryPoolExactly` | src/async_impl/h3_client/pool.rs:114-139 | In every reachable state `try_pool` answers with that connection exactly if its driver has not reported its end and its last touch is no longer ago than the timeout |
| `PoolContents.GoodConnectionIsHandedOut` | src/async_impl/h3_client/pool.rs:114-139 | An open connection in the pool, touched no longer ago than the timeout, is handed out |
| `FieldNames.EncodedByteByByte` | src/async_impl/multipart.rs:580-588 | A name is encoded byte by byte, in capital hexadecimal digits, and what need not be encoded is left alone |
| `FieldNames.PathSegmentEncodes` | src/async_impl/multipart.rs:500-511 | The path-segment set has all but visible ASCII characters, and of these ten, listed |
| `FieldNames.ParameterForm` | src/async_impl/multipart.rs:539-551 | A name stands in quotes exactly if none of its bytes must be encoded, and in the extended notation otherwise |
| `FieldNames.DecodeUndoesEncode` | src/async_impl/multipart.rs:500-588 | Percent-decoding undoes percent-encoding of every name, for both sets |
| `FieldNames.EncodedIsSafe` | src/async_impl/multipart.rs:580-588 | What is emitted is ASCII without quotes and control bytes |
| `FieldNames.UnchangedIff` | src/async_impl/multipart.rs:580-588 | Encoding changes a name exactly when it holds a byte of the set |
| `FieldNames.PlainNameSafety` | src/async_impl/multipart.rs:539-551 | A name in plain quotes has no quote and no control byte, except with percent-encoding off |
| `FieldNames.ExtendedNameReadBack` | src/async_impl/multipart.rs:546-550 | A reader of extended values gets the name back, for the path-segment set exactly when no byte outside the value grammar is left bare |
| `FieldNames.ReplacementsAreOnePass` | src/async_impl/multipart.rs:557-561 | The four successive replacements are one pass of quoted-pair escaping |
| `FieldNames.FilenameReadBack` | src/async_impl/multipart.rs:553-564 | Lenient unescaping of a quoted-string returns every file name and stops at its closing quote |
| `Dispositions.StrictIsFiltered` | src/async_impl/multipart.rs:553-564 | A receiver that takes only what RFC 9110 allows in a quoted-string gets what a lenient one does, if that text is fit for a field, and else nothing |
| `Dispositions.StrictFilename` | src/async_impl/multipart.rs:553-564 | Such a receiver gets a file name back if it has no control byte but tab, and refuses it otherwise |
| `Dispositions.PlainReadBack` | src/async_impl/multipart.rs:540-545 | A lenient receiver gets a name in plain quotes back exactly if it has neither quote nor backslash |
| `Dispositions.PlainTextRead` | src/async_impl/multipart.rs:540-545 | Either receiver gets it back exactly if besides, for a strict one, it is fit for a field |
| `Dispositions.DispositionReadBack` | src/async_impl/multipart.rs:535-564 | From the value of the header, in every mode, a lenient or a strict receiver gets field name, file name and their end back exactly for the names of `ReadsBack` and `FileReadsBack`; every field name with the `attr-char` set |
| `Dispositions.LostNames` | src/async_impl/multipart.rs:500-551 | A name with a trailing backslash and one with a non-ASCII character and a semicolon, under the path-segment set, and one with a quote, without percent-encoding, are not read back |
| `Dispositions.LostFileName` | src/async_impl/multipart.rs:553-564 | A file name with a newline is lost to a strict receiver in every mode |
| `Receiver.DispositionHasNoBreak` | src/async_impl/multipart.rs:535-564 | The disposition is one line, unless a name that is not percent-encoded breaks it; no file name does |
| `Receiver.HeaderBlockReadBack` | src/async_impl/multipart.rs:535-578 | From the first line of the block either receiver gets the names back exactly if, besides, a name that is not percent-encoded has no line break, and then the rest is the remaining header lines |
| `Receiver.BlockReadBack` | src/async_impl/multipart.rs:535-578 | Under the same condition a receiver that cuts the block at line breaks and each line at its first colon gets the names, the media type and all headers in order |
| `Receiver.BrokenName` | src/async_impl/multipart.rs:539-551 | A name with a line break, without percent-encoding, is lost when the block is cut into lines |
| `FormSplitting.FormReadBack` | src/async_impl/multipart.rs:153-207 | A receiver that cuts at delimiters and blank lines gets all header blocks and contents back exactly if each block ends at its first blank line and each part at the first delimiter |
| `FormSplitting.FormIsTakenApartIff` | src/async_impl/multipart.rs:153-207 | With no line breaks in names that are not percent-encoded, exactly if the delimiter occurs in no part |
| `FormSplitting.DelimiterInContent` | src/async_impl/multipart.rs:181-207 | A part whose content starts with the delimiter spoils any form |
| `FormSplitting.GeneratedBoundary` | src/async_impl/multipart.rs:591-600 | Generated boundaries have 67 characters, all of them hexadecimal digits or hyphens |
| `Multipart.EncodeHeaders` | src/async_impl/multipart.rs:535-578 | Appends to a buffer, piece by piece, the header block of the part, which `Receiver.BlockReadBack` reads |
| `Multipart.FormParts.ComputeLength` | src/async_impl/multipart.rs:408-438 | A length exactly when all parts have one, the sum modulo 2^64; the cache grows by the headers up to the first part without one |
| `Multipart.WrapIsRemainder` | src/async_impl/multipart.rs:408-438 | The sum is the remainder modulo 2^64 |
| `Multipart.PredictionIsExact` | src/async_impl/multipart.rs:408-438 | With honest part lengths the predicted length is the length of the encoding |
| `Multipart.ChainedBytes` | src/async_impl/multipart.rs:166-172 | The fold over any number of parts appends their bytes in order |
| `Multipart.StreamYieldsEncoding` | src/async_impl/multipart.rs:153-207 | However bodies are chunked the stream is the encoding, and nothing for a form without parts |
| `MultipartReader.Reader.constructor` | src/blocking/multipart.rs:312-319 | A new reader has the whole encoding before it, if the cache is a prefix of the headers of the fields |
| `MultipartReader.Reader.NextReader` | src/blocking/multipart.rs:321-356 | Moving to the next part loses and repeats no byte, and the cache is still a prefix of the headers of the fields left |
| `MultipartReader.Reader.Read` | src/blocking/multipart.rs:359-380 | Fails exactly if a part does, and otherwise fills the buffer unless the encoding ends, however little the parts yield at a time; leaves the rest of the buffer alone; after a failure the bytes already copied are in the buffer and not read again |
| `MultipartReader.FormReader` | src/blocking/request.rs:561-573 | Computing the length and then reading gives the encoding, also when the scan stopped at a part of unknown length |
| `MultipartReader.Pull` | src/blocking/multipart.rs:359-380 | Reads with any sequence of buffer sizes deliver the encoding from its start, as much as they hold or up to the first failure |
| `MultipartReader.SecondScan` | src/async_impl/multipart.rs:408-438 | After a second scan the cache agrees exactly when each field that meets a repeated header has that header |
| `MultipartReader.SecondScanSpoils` | src/async_impl/multipart.rs:408-438 | A form of two parts whose cache a second scan spoils |
| `BodyPump.SendFuture` | src/blocking/body.rs:274-353 | Chunks are nonempty and concatenate to a prefix of what the reader has; it gives up exactly if the receiver is gone or a read has failed, aborting in the latter case, and otherwise sends all of it or the declared length; the reads are a possible sequence, and none follows reaching the declared length |
| `BodyPump.NeverTooMuchIff` | src/blocking/body.rs:279-348 | Whatever the reads yield and however much room is made, no more than declared is sent: exactly for a declared length up to 8192 or a reader with no more than that |
| `BodyPump.TooMuchInChunksIff` | src/blocking/body.rs:279-348 | With room made 8192 bytes at a time, too much can be sent exactly for a declared length over 8192 that is no multiple of it and a reader with more |
| `BodyPump.OneByteTooMany` | src/blocking/body.rs:279-348 | With 8193 bytes declared and 8194 there, two full reads send 8194 |
| `BodyPump.DynRead.Read` | src/blocking/body.rs:320-330 | Callers must offer room, so that nothing read means the end of input |
| `BodyPump.FormBody` | src/blocking/request.rs:567-570 | The body of a form: sized exactly when every part length is known |
| `BodyPump.SendBuffered` | src/blocking/body.rs:142-146 | A body of bytes has its length as `Content-Length`, and yields just these bytes |
| `BodyPump.Upload` | src/blocking/request.rs:140-153 | A whole upload gives up exactly if the receiver is gone or a part has failed; otherwise it sends the encoding up to its end or the `Content-Length`, and with honest lengths and under 2^64 bytes all of it, `Content-Length`, where there is one, being its number of bytes |
| `ResponseBodies.ReadTimeoutBody.PollFrame` | src/async_impl/body.rs:336-360 | Arms the sleep on the first poll since an item, polls the body only before it is ready, disarms on an item |
| `ResponseBodies.TotalTimeoutBody.PollFrame` | src/async_impl/body.rs:303-315 | From the deadline on the body inside is not polled |
| `ResponseBodies.Response` | src/async_impl/body.rs:386-406 | All four combinations of limits, the total timeout outermost, nothing armed yet |
| `ResponseBodies.NothingLostOrRepeated` | src/async_impl/body.rs:303-360 | Under any limits and any trace, what comes out besides timeouts is what the connection yielded, in order, once |
| `ResponseBodies.ReadTimeoutExactly` | src/async_impl/body.rs:336-360 | A read timeout is reported exactly when the first poll since the last item is at least the timeout old |
| `ResponseBodies.TotalTimeoutCuts` | src/async_impl/body.rs:303-315 | With a monotone clock nothing comes out at or after the deadline, and before it the body behaves as without one |
| `ResponseBodies.TimeoutExactly` | src/async_impl/body.rs:386-406 | Both limits together time out exactly when one of them alone would |
| `ResponseBodies.TimeoutIsFinal` | src/async_impl/body.rs:303-360 | After a timeout every later poll reports a timeout |
| `ResponseBodies.ReusableBody.PollFrame` | src/async_impl/body.rs:248-255 | All bytes in one frame, none if there are none, and then the end for ever |

## Left out

Assumptions about code that is not part of this model:

- The drivers of tower and tower-http: a logical call gets a fresh clone of the retry policy with shared
  budgets, `clone_request` comes before every send, `retry` is consulted only if there is a clone, and a
  redirect builds a request without extensions and then calls `on_request`.
- The percent-encoding crate: a borrowed result is taken to mean that nothing was encoded.
- The bytes crate: `reserve(8192)` gives at least 8192 bytes, and a zeroed buffer has exactly the capacity
  asked for.
- tokio: a sleep is ready from its instant on, and a watch channel behaves as its documentation says; the
  instant of a clock reading and the instant a sleep is armed from it are the same.
- The url crate: the URLs of requests parse, and one without credentials and fragment fits a header value.
- Limits of Rust's integers on lengths in memory, indices and retry counts are not reached.

What the model does not have:

- `RetryPolicy.Policy.Retry`: does not inspect transport errors, because that needs the h2 and h3 crates;
  whether an error is transient is arbitrary.
- `Budgets.HostBudgets.Withdraw`: does not model tower's rolling window, because it is not part of the
  repository; whether a withdrawal is granted is arbitrary.
- `RequestRun.RequestTerminates`: does not cover custom redirect closures, because one that always
  follows never ends.
- `RequestRun.SensitiveHeadersStay`: speaks of one hop at a time, because what an earlier hop removed may be put back
  by tower-http, which is not part of this model; what headers it puts on a request is arbitrary.
- `Pool.PoolInner.NewConnection`: requires the key of its lock in `connecting`; `PoolWakeups.LockDiscipline`
  shows that every reachable state has it.
- `FormSplitting.FormReadBack`: does not have the blanks that a delimiter line may end in, because none are emitted.
- Mutex poisoning, and at most one idle connection per key being live: an insertion may overwrite.
- `PoolClient::send_request`, TLS, connectors, SOCKS, DNS, wire protocols, cookies, logging, URL parsing,
  generation of boundaries and the WebAssembly client: foreign calls or plumbing.
- Builder setters, `Debug` output, `src/util.rs` and `src/config.rs`: they would only add easy members.
