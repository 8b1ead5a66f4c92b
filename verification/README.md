# ifinmail: a verified model

A Dafny model of the parts of ifinmail where correctness spans several steps, several processes or
a whole run, and proofs of what those parts promise. `dafny verify dfyconfig.toml` checks everything.

## What is modelled

**The contact directory, end to end.** `utf8.dfy`, `fold.dfy` and `vcard.dfy` turn a mailbox into a
vCard 3.0 document (RFC 2426) and read it back: the byte loop that folds at 75 octets never splits a
character, unfolding and unescaping recover what was written. `publish.dfy` is the publisher: one card
per person, then the manifest. `sync.dfy`, `mirror.dfy` and `replication.dfy` are the process beside
Radicale: the book, the links in the mailbox homes, and their withdrawal. `Publisher` and `Mirror` record
every state a crash may leave behind, so that the theorems hold for a crash between any two file
operations.

**At-most-once sending.** `idempotency.dfy` is the slot behind an `Idempotency-Key` as a state machine:
requests look, mark, send, record and die in any order, and time passes in between. `api_client.dfy` is
the Python client's retry loop, and the two together give what one `send` does.

**Counters and caches with explicit time.** `shared_cache.dfy` is the cache; `rate_limiter.dfy`,
`stepup.dfy` and `cached_setting.dfy` are the rate limiter, the limit on password re-confirmation and the
settings read through a cache.

**Credential lifecycles.** `recovery_codes.dfy`, `recovery_rows.dfy`, `passwordless.dfy`, `totp.dfy`, `mfa.dfy`
and `roles.dfy`:
passkeys-only sign-in, one-time codes (section 5.3 of RFC 4226, section 5.2 of RFC 6238), two-factor
enrolment, and role assignment with its guard for the last holder.

**Algorithms.** `auditor.dfy` (scores and grouping of findings), `search_index.dfy` (the frozen search
index and the ranked search), `release_props.dfy` (the properties file and the version in it),
`photo_crop.dfy` (the square that the browser draws and the server cuts), `decimal.dfy` (numbers as text).

Code that changes state step by step is a class or a method with a loop, tied to a function of the old
state; what the code is for is proved about those functions. Protocols whose steps interleave are state
machines (`State`, `Action`, `Enabled`, `Apply`), and the method beside each is one caller that nothing
disturbs.

## Where the code and its promise part

Named first is a lemma with a run, or an input, for which the promise fails; the lemma named after it says
exactly which steps or inputs those are. The theorems over whole runs ask that no such step is taken, and
further lemmas give simple conditions under which none is.

- A mirror in state `off` may keep a book. When the directory is switched on and the home of a listed
  mailbox is a plain file, the round makes the book and raises, `last` stays `off`, and nothing withdraws
  the book afterwards (`BookLeftBehind`; `OffStaysClean`).
- A role whose stored permissions are a JSON object with a member `roles.manage` passes the guard of
  `assign` but grants nothing, so the last holder can be lost (`HollowRoleLocksOut`; `SomeoneStays`).
- Two requests that both read the idempotency slot before either marks it both send, however long marks
  live (`InterleavedClaimsSendTwice`), and so do a slow send and a retry (`SlowSendSendsTwice`). Time and
  other requests may well come between the two cache calls: it is enough that the slot is still empty when
  it is marked, and still shows the request's own mark when the request goes on (`Idempotency.StepKeeps`,
  `CarefulIsHarmless`).
- One call of the client's `send` hands over one message as long as four attempts and the lag of late claims
  stay below 178 seconds together; from there on it can hand over two (`BoundIsSharp`; `DefaultCallSendsOnce`,
  `OneCallSendsOnce` for any number of attempts).
- A 429 without a readable `Retry-After` makes the client wait 64 seconds and more from the sixth attempt on,
  past the minute that otherwise caps it (`SixthWait`; `WaitBound`).
- The client's documentation says that a call that changes something is repeated only with an idempotency
  key; the code also repeats it after a 429. The model follows the code (`ApiClient.Request`).
- A caller of the rate limiter that is more than five seconds late finds no counter and is let through
  (`LateCallerGetsThrough`; `RateLimiter.StepKeeps`, `IncrementIsExact`).
- Password confirmations that overlap all see the same counter: any number of them fails within an instant
  (`OverlapIsUnlimited`; `StepUp.StepKeeps`).
- Two sign-ins that both find a recovery code's row before either saves it are both accepted
  (`TwoSignInsWithOneCode`; `RecoveryRows.StepKeeps`).
- Two removals of passkeys that are both allowed before either deletes can leave too few, with the switch on,
  and so can a removal and the turning on of the switch (`TwoRemovalsLockOut`, `RemovalOverEnableLocksOut`;
  `ActIsSafe`).
- Two role assignments that overlap can each let a holder go because of the other one
  (`TwoAssignmentsLockOut`; `PutKeepsSomeone`), and two enrolments that overlap leave two pending devices
  (`TwoStartsLeaveTwo`; `OverlappingStart`).
- While a plain file stands in the place of a home, no round of the mirror makes it mirror the source
  (`BlockedStays`; `RoundConverges`).
- A read of a cached setting that overlaps a change caches the old value (`OverlapServesOldValue`;
  `StaysUpToDate`).
- With caching on but a lifetime of zero or less and a clock that stands still, a search can return an old
  index (`StillClockServesOldIndex`; `SearchIndex.CallKeeps`). With caching off the first index is served until
  it is invalidated (`WithoutCacheFirstIndexStays`).
- Grouping findings is not idempotent when a kept finding imitates a made-up key (`ClashIsNotIdempotent`;
  `GroupingIsIdempotent`), and loses reports for the empty path (`EmptyPathIsLost`; `ReportsAfterGrouping`);
  neither can happen in an audit (`AuditGroups`).
- `set_prop` edits the first line of a key and `read_props` takes the last (`SecondLineShadows`;
  `SetThenRead`). A version part bumped from 99 makes a name that no longer parses
  (`BumpStaysInRange`, `BumpTakesEffect`) and a code that may collide (`CodesCollide`).
- The square cut from a picture whose shorter side is below 32 pixels is not inside it (`CutIsInside`);
  such pictures are refused earlier.

## Model

| member | source | states |
|---|---|---|
| Utf8.Decode | backend/apps/accounts/services/directory.py:56-68 | a strict decoder: what it returns encodes back to the very bytes it was given |
| Utf8.DecodeEncode | backend/apps/accounts/services/directory.py:56-68 | every text survives the trip through its UTF-8 bytes |
| Utf8.EncodedExamples | backend/apps/accounts/services/directory.py:56-68 | characters of one to four bytes are encoded as the examples of RFC 3629 are |
| Utf8.Boundary | backend/apps/accounts/services/directory.py:62-66 | a byte position is between two characters when it is the end or no continuation byte stands there |
| ContentLine.ShortLine | backend/apps/accounts/services/directory.py:56-61 | a line of at most 75 octets stays as it is |
| ContentLine.CutPoint | backend/apps/accounts/services/directory.py:62-65 | stepping back from the limit ends exactly after the last character that fits, and makes progress |
| ContentLine.CutIsFit | backend/apps/accounts/services/directory.py:62-66 | there is only one place where the inner loop may stop: the end of the last character that fits |
| ContentLine.Fold | backend/apps/accounts/services/directory.py:56-68 | the byte loop terminates, never fails to decode, and gives the greedy split into whole characters, joined by CRLF and a space |
| ContentLine.PhysicalLinesFit | backend/apps/accounts/services/directory.py:56-68 | every physical line is at most 75 octets, the leading space included |
| ContentLine.PiecesAreLong | backend/apps/accounts/services/directory.py:56-68 | every piece but the last takes at least 71 octets |
| ContentLine.PiecesConcatenate | backend/apps/accounts/services/directory.py:56-68 | no piece is lost, repeated or reordered |
| ContentLine.UnfoldFolded | backend/apps/accounts/services/directory.py:56-68 | unfolding (section 2.6 of RFC 2426) undoes folding, whatever follows the line |
| VCard.EscapeIsMap | backend/apps/accounts/services/directory.py:45-53 | the chain of replacements equals one pass that maps each character: none touches what an earlier one produced |
| VCard.EscapedCharacters | backend/apps/accounts/services/directory.py:45-53 | what becomes of backslash, line feed, carriage return, semicolon and comma, and that nothing else changes |
| VCard.UnescapeEscape | backend/apps/accounts/services/directory.py:45-53 | unescaping an escaped value gives it back without its carriage returns |
| VCard.ComponentsStep | backend/apps/accounts/services/directory.py:45-53 | an escaped value is never split at a semicolon it holds |
| VCard.NameComponents | backend/apps/accounts/services/directory.py:87-106 | the N value splits into exactly the five components that were written |
| VCard.NamePartsAreWords | backend/apps/accounts/services/directory.py:87-106 | given and family name together are the words of the display name in order |
| VCard.AsciiSpaces | backend/apps/accounts/services/directory.py:88-90 | which ASCII characters stand between words |
| VCard.LogicalLines | backend/apps/accounts/services/directory.py:87-106 | unfolding and splitting a whole card gives exactly its content lines |
| VCard.PhysicalLines | backend/apps/accounts/services/directory.py:56-106 | no physical line of a whole card is longer than 75 octets |
| VCard.AddressParts | backend/apps/accounts/services/directory.py:88-99 | the parts of an address before and after its first @ |
| VCard.ReadVcard | backend/apps/accounts/services/directory.py:87-106 | a reader of the card, by the names of its lines, recovers the name, or the part of the address before the @ for want of one; the address; and the part after the @; minus carriage returns, whatever they hold |
| VCard.ReadFixedLines | backend/apps/accounts/services/directory.py:71-106 | version, identifier, and revision and photo where there are any |
| VCard.Frame | backend/apps/accounts/services/directory.py:91-106 | the card begins and ends as one, and has no other lines |
| VCard.ReadVcardName | backend/apps/accounts/services/directory.py:87-106 | a reader of the card recovers the five components of the name |
| VCard.SingleName | backend/apps/accounts/services/directory.py:88-90 | a display name of one word or none is the given name as it is |
| DirectoryPublish.WantedHasCard | backend/apps/accounts/services/directory.py:71-85 | every person with an id of their own has their own card, in UTF-8, under the id with the ending .vcf |
| DirectoryPublish.Publisher.WriteStale | backend/apps/accounts/services/directory.py:138-191 | exactly the cards that differ are written, and every state on the way is partly published under the old manifest |
| DirectoryPublish.Publisher.RemoveLeftover | backend/apps/accounts/services/directory.py:138-191 | exactly the cards that are not wanted are removed; nothing else is |
| DirectoryPublish.Publisher.Publish | backend/apps/accounts/services/directory.py:138-191 | the directory ends published, the counts are exact, and until the last step the old manifest is in force in every state a crash may leave |
| DirectoryPublish.PublishAgain | backend/apps/accounts/services/directory.py:138-191 | a second publish writes and removes nothing |
| DirectoryPublish.HoldsTheWanted | backend/apps/accounts/services/directory.py:138-191 | a published directory holds exactly the wanted cards, whatever was there before |
| DirectoryPublish.OtherFilesStay | backend/apps/accounts/services/directory.py:138-191 | files without that ending stay as they are |
| DirectoryPublish.PublishAfterCrash | backend/apps/accounts/services/directory.py:138-191 | a crash anywhere inside an earlier publish, of other cards, makes no difference to the next one |
| DirectorySync.HomeIsNoMailbox | provisioning/docker/dav/directory-sync.py:40-49 | the home of the book is not a safe mailbox name |
| DirectorySync.OnTheWayTransitive | provisioning/docker/dav/directory-sync.py:93-157 | what a run may do, seen from where it began, composes: foreign data stays and no card is ever half written |
| DirectorySync.OnTheWayBlocks | provisioning/docker/dav/directory-sync.py:116-157 | a run that stops anywhere has not changed which homes are plain files |
| DirectorySync.WithdrawnIsClean | provisioning/docker/dav/directory-sync.py:68-81 | after a withdrawal neither the book nor any link to it is left |
| DirectoryMirror.Mirror.SyncBook | provisioning/docker/dav/directory-sync.py:93-113 | the book becomes exactly the published cards with the properties, the counts are exact, nothing outside it changes, and a book that is right already is not touched |
| DirectoryMirror.Mirror.MakeBook | provisioning/docker/dav/directory-sync.py:93-113 | the home and then the book in it are made, through a state a crash may leave |
| DirectoryMirror.Mirror.SyncLinks | provisioning/docker/dav/directory-sync.py:116-140 | every listed safe mailbox without a collection of its own has the link, no other has; it stops half-way exactly when a listed home is a plain file; the counts are exact |
| DirectoryMirror.Mirror.DropLinks | provisioning/docker/dav/directory-sync.py:133-140 | links of mailboxes that are no longer listed go, and with nothing to drop nothing changes |
| DirectoryMirror.Mirror.Withdraw | provisioning/docker/dav/directory-sync.py:68-81 | book and links go, nothing else, through states a crash may leave |
| DirectoryMirror.Mirror.RemoveHome | provisioning/docker/dav/directory-sync.py:68-81 | the book's home goes file by file and nothing beside it |
| DirectoryMirror.Mirror.Cycle | provisioning/docker/dav/directory-sync.py:143-170 | one round of the main loop is the `Round` the theorems speak of, and every state on its way is one that `Crash` allows |
| DirectoryReplication.RoundConverges | provisioning/docker/dav/directory-sync.py:143-157 | from any collection root one undisturbed round mirrors the source, if and only if no plain file stands in the place of a listed home or of the book's home |
| DirectoryReplication.BlockedStays | provisioning/docker/dav/directory-sync.py:116-124 | a plain file in the place of a home is left alone, and the root does not mirror the source |
| DirectoryReplication.OwnCollectionsStay | provisioning/docker/dav/directory-sync.py:116-140 | after a round a mailbox has the link exactly when it is listed and has no collection of its own |
| DirectoryReplication.ListedAddressGetsLink | provisioning/docker/dav/directory-sync.py:40-49 | every listed address with an @, of at most 254 characters, without upper-case letters, separators and leading dot, has the link after an unblocked round unless it has its own collection |
| DirectoryReplication.OddNamesStay | provisioning/docker/dav/directory-sync.py:40-49 | over every run no home is made or linked under any other name |
| DirectoryReplication.RoundAnswers | provisioning/docker/dav/directory-sync.py:143-170 | a round that went through answers with the manifest's digest, one that raised with what was answered before |
| DirectoryReplication.MirroredIsStable | provisioning/docker/dav/directory-sync.py:143-157 | once it mirrors, another round changes nothing |
| DirectoryReplication.PublishThenRound | backend/apps/accounts/services/directory.py:138-182 | end to end, from any source and any collection root: one publish and one round give exactly the published cards unless the book's home is a plain file, and mirror the source if and only if no home is; then a second publish and round change nothing |
| DirectoryReplication.RunLeavesForeign | provisioning/docker/dav/directory-sync.py:68-157 | over every run with crashes and restarts no personal collection and no other data is touched, and a foreign link is replaced only in a home that was listed |
| DirectoryReplication.RunThenConverges | provisioning/docker/dav/directory-sync.py:143-170 | after any run with any crashes the next undisturbed round converges, exactly when it would have from the state before the run |
| DirectoryReplication.DisabledWithdraws | provisioning/docker/dav/directory-sync.py:143-157 | without a manifest, or with one that says off, everything is withdrawn and the state is off |
| DirectoryReplication.OffStaysClean | provisioning/docker/dav/directory-sync.py:143-170 | a round keeps "off means withdrawn" if and only if it is not one that leaves the book behind |
| DirectoryReplication.RunKeepsOffClean | provisioning/docker/dav/directory-sync.py:143-170 | over every run without such a round, state off means no book and no link |
| DirectoryReplication.BookLeftBehind | provisioning/docker/dav/directory-sync.py:143-170 | the concrete run in which state off keeps a book for good |
| Idempotency.StepKeeps | backend/apps/mail/api.py:410-445 | a step of any request keeps the invariant of slot, sends and replies if and only if it is harmless: a mark needs that nothing is under way or in force, going on needs that nobody else came since |
| Idempotency.CarefulIsHarmless | backend/apps/mail/api.py:410-445 | what the slot shows is enough: a mark of an empty slot, and going on while the slot shows the request's own mark, are harmless |
| Idempotency.RunKeeps | backend/apps/mail/api.py:410-445 | the invariant holds over every run of such steps, whatever comes between the two cache calls |
| Idempotency.TimelyRunIsCareful | backend/apps/mail/api.py:410-445 | in particular when the slot is empty at every mark and every send is faster than the mark expires |
| Idempotency.AtMostOnce | backend/apps/mail/api.py:410-445 | a second send for the same key and token is claimed only 24 hours after the first one's answer was recorded, or a pending life after its claim when that was never recorded |
| Idempotency.SameReceipt | backend/apps/mail/api.py:410-445 | every 202 carries the receipt of a finished send of the same message, the same one for 24 hours |
| Idempotency.FinishAfterClaim | backend/apps/mail/api.py:410-445 | no answer is recorded before its claim |
| Idempotency.InterleavedClaimsSendTwice | backend/apps/mail/api.py:418-431 | two requests that look before either marks both send, however long marks live |
| Idempotency.SlowSendSendsTwice | backend/apps/mail/api.py:410-445 | a send that outlasts its mark lets a retry send as well, however long marks live |
| Idempotency.Undisturbed | backend/apps/mail/api.py:410-445 | what one request alone is answered for each content of the slot, and what it leaves there |
| Idempotency.MessageApi.Handle | backend/apps/mail/api.py:410-445 | the handler's body is exactly the steps of the model for one request |
| ApiClient.Request | examples/python/ifinmail_client.py:100-149 | by status: no answer and 400 and above are errors, 204 and an empty body nothing, anything else the value; a 429 is always repeated, no answer and 502, 503 and 504 when the server can recognise the repeat, nothing else is; the waits are the prescribed ones |
| ApiClient.WaitIs | examples/python/ifinmail_client.py:130-140 | a readable header is waited for, within 0 to 60 seconds; without one, and after other answers, the client waits 2, 4, 8, 16 seconds and so on, capped at 20 except after a 429 |
| ApiClient.WaitBound | examples/python/ifinmail_client.py:134-136 | for every attempt: a wait is longer than a minute if and only if it follows a 429 without a readable header and is the sixth or later |
| ApiClient.SixthWait | examples/python/ifinmail_client.py:693-698 | the sixth such wait is 64 seconds |
| ApiClient.ScheduleSpan | examples/python/ifinmail_client.py:113-149 | how long after the first attempt the k-th can begin, for any k and any length of an attempt |
| ApiClient.SpanIs | examples/python/ifinmail_client.py:113-149 | with the client's defaults that is three attempts and three minutes |
| ApiClient.ClaimsAreClose | examples/python/ifinmail_client.py:113-149 | two claims of one call are no further apart than the last claim can be from the first attempt, since an attempt that sent is never answered 429 |
| ApiClient.OneCallSendsOnce | examples/python/ifinmail_client.py:255-279 | client and server together, for any number and length of attempts and any lag of claims for attempts the client gave up: one `send` hands over at most one message when the last claim cannot come after the first mark has expired |
| ApiClient.DefaultCallSendsOnce | examples/python/ifinmail_client.py:255-279 | with the client's defaults that is so when four attempts and the lag stay below 178 seconds together |
| ApiClient.BoundIsSharp | examples/python/ifinmail_client.py:113-149 | when they do not, one call can hand over two: its first answer is lost after the send, two attempts are told to wait a minute, and the fourth is claimed after the mark has expired |
| ApiClient.AnswerIsTheReceipt | examples/python/ifinmail_client.py:255-279 | a 202 that ends the call carries that message's receipt |
| ApiClient.Paged | examples/python/ifinmail_client.py:151-162 | paging over a list that does not change yields every item once, in order |
| RateLimiter.EffectiveLimit | backend/apps/accounts/services/api_access.py:40-45 | a limit that is given is in force unless it is 0, then a positive one that is configured, and else 120 |
| RateLimiter.StepKeeps | backend/apps/accounts/services/api_access.py:56-73 | counters and hits stay in step if and only if no counter has expired under the caller |
| RateLimiter.IncrementIsExact | backend/apps/accounts/services/api_access.py:65-73 | after one more increment the window has let min(hits, limit) calls through if and only if the counter was there or the limit not reached |
| RateLimiter.RunKeeps | backend/apps/accounts/services/api_access.py:56-73 | in every interleaving in which no counter expires under a caller, the counter of a window equals its hits |
| RateLimiter.TimelyRunIsPrompt | backend/apps/accounts/services/api_access.py:56-73 | none does when every caller is through within the slack of the timeout |
| RateLimiter.ExactlyTheLimit | backend/apps/accounts/services/api_access.py:56-73 | every window lets exactly min(hits, limit) calls through, however clock read, add and incr interleave |
| RateLimiter.AnyMinute | backend/apps/accounts/services/api_access.py:56-73 | any 60 seconds let at most twice the limit through |
| RateLimiter.LateCallerGetsThrough | backend/apps/accounts/services/api_access.py:56-73 | a caller later than the slack is let through beyond the limit |
| RateLimiter.Limiter.Hit | backend/apps/accounts/services/api_access.py:56-73 | one undisturbed call: the count, whether it is allowed, what remains and when the minute ends; without a working cache it is allowed and counts nothing |
| StepUp.StepUpService.Confirm | backend/apps/accounts/services/stepup.py:20-42 | which answer when, with five failures as the limit; a wrong password counts exactly one more, the right one clears the counter, and otherwise it is left alone |
| StepUp.StepKeeps | backend/apps/accounts/services/stepup.py:20-42 | the counter keeps up with the failures of an interval if and only if no call writes less than it has seen |
| StepUp.AtMostFiveFailures | backend/apps/accounts/services/stepup.py:20-42 | in any run in which no failure is forgotten, every half-open interval of at most 600 seconds without a success holds at most five failed checks |
| StepUp.NoOverlapForgetsNothing | backend/apps/accounts/services/stepup.py:20-42 | calls of one user that do not overlap forget none |
| StepUp.OverlapIsUnlimited | backend/apps/accounts/services/stepup.py:20-42 | any number of calls that overlap fail within an instant |
| StepUp.LongerIntervalSeesSix | backend/apps/accounts/services/stepup.py:20-42 | 600 seconds is all it covers: every longer interval can hold six, without any overlap |
| CachedSetting.NormalIs | backend/apps/accounts/services/appearance.py:24-40 | the listed themes are kept as they are, any other is the default one |
| CachedSetting.StepKeeps | backend/apps/accounts/services/appearance.py:24-51 | every step of readers and writers keeps what is known of cached and loaded values |
| CachedSetting.BoundedStaleness | backend/apps/accounts/services/registration_policy.py:15-28 | in every interleaving a served value was stored at an instant within the lifetime plus the delay of the reader that cached it |
| CachedSetting.StaysUpToDate | backend/apps/accounts/services/registration_policy.py:15-28 | a cache falls behind if and only if a reader caches a value that was overtaken, or a change finds another value cached |
| CachedSetting.ServedIsCurrent | backend/apps/accounts/services/appearance.py:24-51 | in every run in which no reader does so and nobody looks the setting up between a change and its clearing, each value served is what the setting is at that moment |
| CachedSetting.NoOverlapIsPrompt | backend/apps/accounts/services/appearance.py:24-51 | no reader does so when none stands between its look at the store and its cache write at a change |
| CachedSetting.ClearedAtOnceIsQuiet | backend/apps/accounts/services/registration_policy.py:15-28 | nobody does when every change is cleared at once |
| CachedSetting.OverlapServesOldValue | backend/apps/accounts/services/registration_policy.py:15-28 | a read that overlaps a change makes later reads old |
| CachedSetting.SettingService.Value | backend/apps/accounts/services/appearance.py:24-51 | a read returns what is cached or what is stored; a current cache stays current, and one that has expired becomes so |
| CachedSetting.SettingService.Change | backend/apps/accounts/services/appearance.py:24-51 | a change stores the value and drops the cached one; what is no theme is refused and changes nothing |
| RecoveryCodes.SpendOne | backend/apps/accounts/services/passwordless.py:130-144 | accepting a code uses up one code with that text and no other |
| RecoveryCodes.IssuedTimes | backend/apps/accounts/services/passwordless.py:119-126 | a batch is good for a text exactly as often as that was drawn |
| RecoveryCodes.SpendAt | backend/apps/accounts/services/mfa.py:276-285 | the first unused row that matches is the one that is spent |
| Passwordless.ShownIsRaw | backend/apps/accounts/services/passwordless.py:46-52 | the code as shown normalises to the code as stored |
| Passwordless.OneCharacter | backend/apps/accounts/services/passwordless.py:46-47 | what becomes of each character of a typed code |
| Passwordless.SeparatorsDoNotMatter | backend/apps/accounts/services/passwordless.py:46-47 | one more blank or hyphen, anywhere, is the same code |
| Passwordless.CaseDoesNotMatter | backend/apps/accounts/services/passwordless.py:46-47 | another case, anywhere, is the same code |
| Passwordless.EnoughPasskeys | backend/apps/accounts/services/passwordless.py:66-86 | no passkey is too few, one is enough if it is synced, two always are |
| Passwordless.AlwaysSafe | backend/apps/accounts/services/passwordless.py:66-160 | in every run of requests one at a time: while the switch is on the passkeys suffice and there are exactly ten codes, used and unused; while it is off there are none |
| Passwordless.ActIsSafe | backend/apps/accounts/services/passwordless.py:90-160 | a request that acts after its guard said yes keeps that if and only if the guard would still allow it |
| Passwordless.OverlapStaysSafe | backend/apps/accounts/views/passkeys.py:131-160 | in every run of overlapping requests, each of which would still be allowed when it acts, the same holds |
| Passwordless.NoOverlapIsNeverLate | backend/apps/accounts/views/passkeys.py:131-160 | each would when whoever was allowed acts next |
| Passwordless.TwoRemovalsLockOut | backend/apps/accounts/views/passkeys.py:146-153 | two removals that are both allowed before either deletes leave no passkey, with the switch on |
| Passwordless.RemovalOverEnableLocksOut | backend/apps/accounts/views/passkeys.py:146-153 | a removal allowed while the switch was off acts after it was turned on |
| Passwordless.SuccessesUseCodesUp | backend/apps/accounts/services/passwordless.py:90-144 | conservation over every run: what was there and what was issued is used, discarded or still there, text by text |
| Passwordless.EachCodeOnce | backend/apps/accounts/services/passwordless.py:90-144 | in any run whose drawn codes differ, with any switching and issuing in between, each is accepted at most once however it is typed, and no other text ever |
| Passwordless.OldCodesStop | backend/apps/accounts/services/passwordless.py:90-144 | once codes are replaced or deleted an old one is never accepted again, unless drawn anew |
| Passwordless.ShownCodeIsAccepted | backend/apps/accounts/services/passwordless.py:130-144 | an unused code typed from the paper is accepted and spent |
| Passwordless.PasswordlessService.EnableSwitch | backend/apps/accounts/services/passwordless.py:90-100 | turned on exactly when the passkeys suffice; refused, it changes nothing |
| Passwordless.PasswordlessService.DisableSwitch | backend/apps/accounts/services/passwordless.py:102-110 | afterwards no text is accepted as a code, the passkeys are untouched, and the answer says whether the switch was on |
| Passwordless.PasswordlessService.ReplaceCodes | backend/apps/accounts/services/passwordless.py:112-117 | a new batch replaces the old one exactly while the switch is on |
| Passwordless.PasswordlessService.ConsumeCode | backend/apps/accounts/services/passwordless.py:130-144 | the search loop spends the first unused matching row, or nothing |
| Passwordless.PasswordlessService.RemoveKey | backend/apps/accounts/views/passkeys.py:131-160 | a removal that nothing overlaps: the passkey goes exactly when the guard allows it |
| DecimalText.DecimalIsNumber | backend/apps/accounts/services/mfa.py:52-56 | the decimal text of a number stands for that number |
| DecimalText.ZeroFillKeeps | backend/apps/accounts/services/mfa.py:52-56 | padding with zeros keeps digits and number |
| Totp.HotpIsSixDigits | backend/apps/accounts/services/mfa.py:52-56 | always six digits, whose value is the big-endian number at the place the low four bits of the last byte say, without its top bit, modulo 10^6 |
| Totp.RfcExample | backend/apps/accounts/services/mfa.py:52-56 | the example of section 5.4 of RFC 4226 |
| Totp.VerifyCode | backend/apps/accounts/services/mfa.py:78-93 | the loop over the neighbouring steps accepts exactly what padded or cut to six digits is one of their codes |
| Totp.LastSixIs | backend/apps/accounts/services/mfa.py:78-93 | what is compared: the last six digits, after zeros where there are fewer |
| Totp.SpacesDoNotMatter | backend/apps/accounts/services/mfa.py:78-93 | a space makes no difference wherever it is typed |
| Totp.EndsDoNotMatter | backend/apps/accounts/services/mfa.py:78-93 | nor does any blank at either end |
| Totp.GenuineCodeWorks | backend/apps/accounts/services/mfa.py:78-93 | the code of counter c works throughout [30(c-1), 30(c+2)) |
| Totp.OnlyThen | backend/apps/accounts/services/mfa.py:78-93 | outside that interval only when another counter near the clock has the same digits |
| Mfa.GenuineCodeSignsIn | backend/apps/accounts/services/mfa.py:255-274 | a verified device's code signs in throughout its interval, whatever else the login has |
| Mfa.OnlyProofs | backend/apps/accounts/services/mfa.py:255-274 | nothing else does but the text of an unused recovery code |
| Mfa.StepConsistent | backend/apps/accounts/services/mfa.py:183-296 | every operation keeps at most one pending and one verified device, no verified one once two-factor is off, and zero or ten codes |
| Mfa.AlwaysConsistent | backend/apps/accounts/services/mfa.py:183-296 | the same over every run of requests one at a time |
| Mfa.OverlappingStart | backend/apps/accounts/services/mfa.py:183-200 | an enrolment leaves one pending device if and only if it saw every pending one there is by then; verified ones stay |
| Mfa.TwoStartsLeaveTwo | backend/apps/accounts/services/mfa.py:183-200 | two that begin at once leave two |
| Mfa.RequiredPolicyHolds | backend/apps/accounts/services/mfa.py:151-157 | under the required policy no run without a reset turns two-factor off, postpones it or loses the verified device |
| Mfa.SuccessesUseCodesUp | backend/apps/accounts/services/mfa.py:201-296 | conservation of recovery codes over every run, with those accepted to turn two-factor off |
| Mfa.EachCodeOnce | backend/apps/accounts/services/mfa.py:201-296 | in any run whose drawn codes differ each is accepted at most once, at sign-in or to turn two-factor off, and no other text ever |
| Mfa.OldCodesStop | backend/apps/accounts/services/mfa.py:201-296 | once recovery codes are replaced or deleted an old one is never accepted again, unless drawn anew |
| RecoveryRows.StepKeeps | backend/apps/accounts/services/mfa.py:276-285 | with the search for a row and its saving as separate steps: a row is used exactly when one sign-in was accepted with it, and a step keeps that if and only if it does not save a row that is used already |
| RecoveryRows.EachRowOnce | backend/apps/accounts/services/mfa.py:276-285 | in every run in which each row is still unused when it is saved, no code is accepted twice |
| RecoveryRows.NoOverlapIsCareful | backend/apps/accounts/services/mfa.py:276-285 | each is when no request looks for a row while another one has found one |
| RecoveryRows.TwoSignInsWithOneCode | backend/apps/accounts/services/mfa.py:276-285 | two that do are both accepted with one code |
| Mfa.TotpService.StartEnrollment | backend/apps/accounts/services/mfa.py:183-200 | there is exactly the new pending device, the verified ones are as before, and no code opens the login that did not open it before |
| Mfa.TotpService.ConfirmEnrollment | backend/apps/accounts/services/mfa.py:201-225 | goes through exactly for a code of the newest pending device, which becomes the verified one with ten codes |
| Mfa.TotpService.Verify | backend/apps/accounts/services/mfa.py:255-274 | verified devices first, then recovery codes, of which one is spent |
| Mfa.TotpService.ConsumeRecoveryCode | backend/apps/accounts/services/mfa.py:276-285 | spends the first unused row with the text exactly when there is one |
| Mfa.TotpService.DisableSecondFactor | backend/apps/accounts/services/mfa.py:227-241 | refused under the required policy and for a wrong code, with everything else as it was |
| Mfa.TotpService.SnoozePrompt | backend/apps/accounts/services/mfa.py:151-157 | under the required policy it is refused and changes nothing, otherwise only the reminder moves |
| Roles.EffectiveIs | backend/apps/accounts/services/roles.py:55-83 | who is granted which permission: active superusers and active staff without a role, or with one that is gone, all twelve; active staff with a role what its list names; inactive logins nothing |
| Roles.RefusedWhen | backend/apps/accounts/services/roles.py:100-122 | when an assignment is refused, and why |
| Roles.SomeoneStays | backend/apps/accounts/services/roles.py:100-122 | after an assignment some active login is still granted `roles.manage` if and only if a hollow role did not go to the last one |
| Roles.RunKeepsSomeone | backend/apps/accounts/services/roles.py:55-122 | over every sequence of assignments to any mix of logins someone keeps it, when no role is hollow |
| Roles.OnlyObjectsAreHollow | backend/apps/accounts/services/roles.py:55-83 | of all JSON values only objects pass the guard without granting |
| Roles.HollowRoleLocksOut | backend/apps/accounts/services/roles.py:100-122 | the assignment after which nobody can grant roles |
| Roles.PutKeepsSomeone | backend/apps/accounts/services/roles.py:113-121 | a write keeps someone if and only if what the guard asks for holds at that moment |
| Roles.PutsKeepSomeone | backend/apps/accounts/services/roles.py:113-121 | over every run of writes of overlapping assignments for which it does, someone keeps it |
| Roles.TwoAssignmentsLockOut | backend/apps/accounts/services/roles.py:113-121 | two that are both let through before either writes leave nobody |
| Roles.RoleService.HoldersOf | backend/apps/accounts/services/roles.py:89-98 | the search finds a holder exactly when another active login has the permission |
| Roles.RoleService.Assign | backend/apps/accounts/services/roles.py:100-122 | which assignments are refused and why, and that a refused one changes nothing |
| Auditor.PerEndpoint | backend/apps/mydoc/auditor.py:136-158 | the loop's dictionary has the heaviest finding of every endpoint, and only endpoints with findings |
| Auditor.ComputeScore | backend/apps/mydoc/auditor.py:136-158 | the computed score is the one the bounds below are about |
| Auditor.ScoreFalls | backend/apps/mydoc/auditor.py:136-158 | more findings, as far as the score looks, never raise it |
| Auditor.NewEndpointCosts | backend/apps/mydoc/auditor.py:136-158 | the first finding at an endpoint costs 10, 2 or 0 points by its severity |
| Auditor.SameEndpointCosts | backend/apps/mydoc/auditor.py:136-158 | another one that is not heavier costs nothing |
| Auditor.ScoreIs | backend/apps/mydoc/auditor.py:136-158 | what is left of 100 points, but at least 20, and at most 89 with a critical finding |
| Auditor.SingleScore | backend/apps/mydoc/auditor.py:54-58 | 89, 98 or 100 for one finding |
| Auditor.ScoreBounds | backend/apps/mydoc/auditor.py:136-158 | 20 to 100, at most 89 with a critical finding, weakly falling as findings are added |
| Auditor.OnePerKey | backend/apps/mydoc/auditor.py:764-792 | one kept finding per key, in first-seen order |
| Auditor.GroupsAreOk | backend/apps/mydoc/auditor.py:764-792 | each kept finding is the first with its key and affects exactly the paths and methods its group affects together |
| Auditor.GroupingKeepsScore | backend/apps/mydoc/auditor.py:764-829 | grouping never lowers the score |
| Auditor.ReportsAfterGrouping | backend/apps/mydoc/auditor.py:183-192 | for any findings and any path: after grouping exactly the reports are left whose finding affects the path (or whose group affects none), each under the rule of its group's first finding |
| Auditor.SameRulesReported | backend/apps/mydoc/auditor.py:183-192 | when a key belongs to one rule no rule is added for any path, one is lost exactly when none of its reports stays, and none is lost for a path that is not empty |
| Auditor.EmptyPathIsLost | backend/apps/mydoc/auditor.py:764-792 | the empty path is the exception |
| Auditor.GroupingIsIdempotent | backend/apps/mydoc/auditor.py:764-792 | grouping twice is grouping once if and only if no kept finding carries a key that is made up for another one |
| Auditor.NoClashIsEnough | backend/apps/mydoc/auditor.py:764-792 | that is so when no logical key looks like a made-up one |
| Auditor.ClashIsNotIdempotent | backend/apps/mydoc/auditor.py:764-792 | the three findings that a second grouping makes one |
| Auditor.LogicalKeyHasRule | backend/apps/mydoc/auditor.py:743-761 | a logical key begins with its rule |
| Auditor.KeysTellApart | backend/apps/mydoc/auditor.py:743-761 | findings with the same key are of the same rule, view, action and serializer |
| Auditor.AuditGroups | backend/apps/mydoc/auditor.py:795-834 | for the findings of an audit grouping is idempotent and keeps the rules of every endpoint, the empty path included |
| Auditor.AuditFinding.Absorb | backend/apps/mydoc/auditor.py:776-791 | the kept object gains what the other affects, without repeats, in order |
| Auditor.GroupFindings | backend/apps/mydoc/auditor.py:764-792 | the loop over objects returns some of those it was given, and they show what the specification says |
| SearchIndex.BuildIndex | backend/apps/mydoc/introspection.py:1190-1241 | one record per endpoint of every section, in order |
| SearchIndex.RecordAt | backend/apps/mydoc/introspection.py:1190-1241 | the record of every endpoint of every section is in the index, at its place |
| SearchIndex.IndexLength | backend/apps/mydoc/introspection.py:1190-1241 | there are no others |
| SearchIndex.Introspection.InvalidateCache | backend/apps/mydoc/introspection.py:964-972 | everything is forgotten: sections, index, stamps and the shared entry |
| SearchIndex.Introspection.DiscoverEndpoints | backend/apps/mydoc/introspection.py:985-999 | with caching on what is returned is what is cached afterwards, and was found or cached here or elsewhere; a young cache is left alone; with caching off nothing changes; the index is never touched |
| SearchIndex.Introspection.BuildSearchIndex | backend/apps/mydoc/introspection.py:1190-1241 | result and module state of a search's index |
| SearchIndex.CallKeeps | backend/apps/mydoc/introspection.py:964-1241 | for any lifetime: a call keeps index and sections in step if and only if it is no discovery that stores other sections at the clock reading the index is stamped with; and a search is right whenever they are |
| SearchIndex.SearchSeesCachedSections | backend/apps/mydoc/introspection.py:1190-1241 | with caching on, over every run without such a discovery, a search works on the index of the sections cached right then |
| SearchIndex.UsuallyNeverOverwrites | backend/apps/mydoc/introspection.py:985-999 | there is none when the lifetime is positive, or the clock moves on in between |
| SearchIndex.StillClockServesOldIndex | backend/apps/mydoc/introspection.py:1190-1241 | with such a lifetime and a clock that stands still a search returns an old index |
| SearchIndex.WithoutCacheFirstIndexStays | backend/apps/mydoc/introspection.py:1190-1241 | with caching off the first index is served until it is invalidated |
| SearchIndex.EndpointScores | backend/apps/mydoc/_native.py:125-150 | the points of an endpoint for each of its own fields that contains the query, and for each method it names |
| SearchIndex.Containing | backend/apps/mydoc/_native.py:125-150 | a text contains what it is made of |
| SearchIndex.ContainedParts | backend/apps/mydoc/_native.py:125-150 | and is made of what it contains |
| SearchIndex.SortRanks | backend/apps/mydoc/_native.py:125-162 | the stable descending sort lists exactly the hits, by score and then by position |
| SearchIndex.RankingIsUnique | backend/apps/mydoc/_native.py:125-162 | there is only one such order |
| SearchIndex.SearchNative | backend/apps/mydoc/_native.py:125-162 | the first fifty of the one ranking of all records with a positive score; what is left out ranks behind |
| PhotoCrop.CutIsInside | backend/apps/accounts/services/photos.py:62-72 | the cut square lies inside the picture if and only if no crop was sent or the shorter side is at least 32 pixels |
| PhotoCrop.ServerCutsWhatWasDrawn | frontend/static/js/ifinmail-photo.js:27-48 | for every square that can be drawn the server accepts what the browser sends and cuts a square inside the picture; from 32 pixels on its side is within 3/4 pixel of the drawn one and its edges within that plus a 20000th of the axis |
| PhotoCrop.ParseRefuses | backend/apps/accounts/services/photos.py:51-59 | exactly which numbers are no crop |
| PhotoCrop.CentredIsCentred | backend/apps/accounts/services/photos.py:62-66 | without a crop the square is as large as it can be, with equal margins to a pixel |
| PhotoCrop.ZoomIs | frontend/static/js/ifinmail-photo.js:27 | the side shrinks as the zoom grows |
| PhotoCrop.ClampedIs | frontend/static/js/ifinmail-photo.js:29-35 | the centre stays where it is when it can, and else as near as it can |
| PhotoCrop.DrawnInside | frontend/static/js/ifinmail-photo.js:29-48 | the square that is drawn lies inside the picture, whatever the centre was |
| PhotoCrop.CropTool.Draw | frontend/static/js/ifinmail-photo.js:37-48 | clamping and drawing give a square inside the picture, and the fields are its shares in four decimals |
| ReleaseProps.SilentLines | clients/android/scripts/release.py:77-83 | comments, blank lines and lines without = say nothing |
| ReleaseProps.BreaksAre | clients/android/scripts/release.py:77-83 | LF, CR and CRLF are one break each |
| ReleaseProps.SearchFindsFirst | clients/android/scripts/release.py:86-94 | what is edited is the first line that begins with the key, and a key is appended only when there is none |
| ReleaseProps.LineIsFound | clients/android/scripts/release.py:86-94 | a line key=... anywhere is found |
| ReleaseProps.AppendKeepsEol | clients/android/scripts/release.py:86-94 | what is appended has the line ends the file has |
| ReleaseProps.SetChangesOneEntry | clients/android/scripts/release.py:86-94 | setting a key replaces one entry of that key or adds one at the end; every other entry stays in place |
| ReleaseProps.SetThenRead | clients/android/scripts/release.py:77-94 | for every file: other keys read as before; the key reads as set if and only if no later line has it or it read so before |
| ReleaseProps.SetOnceThenRead | clients/android/scripts/release.py:77-94 | a key on at most one line reads as set and nothing else changes |
| ReleaseProps.SecondLineShadows | clients/android/scripts/release.py:77-94 | with the key on two lines the second is still what is read |
| ReleaseProps.NameParsesBack | clients/android/scripts/release.py:57-74 | a version's name parses back to it exactly when its parts are at most 99, and to nothing otherwise |
| ReleaseProps.TwoPartsParse | clients/android/scripts/release.py:57-65 | two parts are a version without patches |
| ReleaseProps.NoNameIsFirst | clients/android/scripts/release.py:97-98 | a file that names no version is of version 1.0.0 |
| ReleaseProps.ParsedIsInRange | clients/android/scripts/release.py:57-65 | whatever parses has parts of at most 99 |
| ReleaseProps.CodeOrders | clients/android/scripts/release.py:68-70 | on parts up to 99 the code is injective and strictly order-preserving |
| ReleaseProps.CodesCollide | clients/android/scripts/release.py:68-70 | 1.100.0 has the code of 2.0.0 and does not parse |
| ReleaseProps.BumpIs | clients/android/scripts/release.py:320-330 | a bump adds one to its part, clears the parts below and keeps those above |
| ReleaseProps.BumpStaysInRange | clients/android/scripts/release.py:320-334 | a bump stays in range exactly when the bumped part is below 99; which bumps are refused |
| ReleaseProps.BumpTakesEffect | clients/android/scripts/release.py:320-334 | for every file: all other keys read as before; name and code read as the new version, each exactly when it is not shadowed or said so already; the version is then current exactly when it is in range |
| ReleaseProps.BumpChangesTwoKeys | clients/android/scripts/release.py:320-334 | with each key on at most one line exactly the two values change |
| ReleaseProps.PropsFile.ReadProps | clients/android/scripts/release.py:77-83 | the loop over the lines gives the dictionary in which later lines win |
| ReleaseProps.PropsFile.SetProp | clients/android/scripts/release.py:86-94 | every other key reads as before, and this one as set exactly when it is not shadowed or said so already |
| ReleaseProps.PropsFile.Bump | clients/android/scripts/release.py:320-334 | name and code are both written, or neither when the bump is refused |

## Left out

- Webhook delivery, the campaign runner, audiences, templates, tracking, the audit chain, WebAuthn and the token services are not part of this model.
- Views, forms, migrations, serializers, settings and templates; sockets, SMTP, DNS, subprocesses, Gradle and git.
- `entries()` and its query, order and upper limit; `book_props`, digests, base64, UUIDs and time formatting, which are parameters.
- Files other than regular ones in the people and book directories, homes that are symbolic links, and input or output errors other than a plain file in the place of a home.
- The temporary files of the publisher: a write is one atomic rename. The mirror's temporary files are modelled.
- Python strings with lone surrogates, which cannot be encoded at all: a Dafny `char` is never one.
- ContentLine.UnfoldFolded: is about lines without CR and LF, the only ones that occur after escaping.
- Idempotency.AtMostOnce: asks that the slot is still empty when it is marked and still shows the mark when the request goes on, which two cache calls in a row cannot promise; the two lemmas beside it show why.
- ApiClient: transport errors, JSON bodies and `add_contacts`; the outcome of each attempt is a parameter. The timeout of the library bounds a connect and each read, not an attempt: the length of an attempt is a parameter too.
- RateLimiter.ExactlyTheLimit: counts calls under a fixed limit, in runs in which no counter expires under a caller.
- RateLimiter.AnyMinute: measures the 60 seconds by the callers' clock readings.
- StepUp.AtMostFiveFailures: asks that no failure is forgotten; overlapping calls of one user can forget failures, since the code reads and writes the counter in two cache calls.
- Passwordless.EachCodeOnce: takes the drawn codes to be different, and begins without codes; so does Mfa.EachCodeOnce. Randomness, hashing and HMAC are parameters or the identity.
- Mfa.AlwaysConsistent: requests one at a time, as are Mfa.RequiredPolicyHolds, Mfa.EachCodeOnce, Passwordless.AlwaysSafe and Roles.RunKeepsSomeone; RecoveryRows and the members named in the section above say what overlapping ones do. Confirmations of an enrolment that overlap are not modelled.
- DirectorySync.SafeName: lower case is modelled for A to Z only. Likewise in Passwordless characters beyond ASCII in `isalnum` and `lower`, and in Totp those in `isdigit` and `strip`.
- Transactions are taken as the production database's default isolation shows them: a statement sees what was committed before it, and only `select_for_update` locks.
- Activation and deletion of logins, reminders (`prompt_due`, `status_for`) and the registration of passkeys beyond adding one.
- Auditor.GroupFindings: takes the findings to be different objects, as the auditor makes them. The rules that find something and the final sort of `run_audit` are left out.
- SearchIndex: walking the URL patterns and reading serializers, which are the parameter `found`; threads inside one process.
- PhotoCrop.ServerCutsWhatWasDrawn: says how close the squares are from a drawn side of 32 pixels on, since the server never cuts less, and is about at most 25 megapixels, since larger pictures are refused; takes floating point numbers as reals; decoding, rotating and encoding pictures is left out.
- ReleaseProps.BumpTakesEffect: whether the code is shadowed is asked of the file in which the name is set already.
- ReleaseProps: line separators other than CR and LF, whitespace other than blanks and tabs, and digits beyond ASCII; the order of the two writes of a bump is modelled, a crash between them is not.
