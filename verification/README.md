# Community Food Connect — a Dafny model of the library core

Community Food Connect matches people who need food (requesters) with volunteer
delivery heroes. This project models the code that holds the application's
logic:

- the browser-storage layer, with its users, food requests, session pointer and
  request lifecycle;
- the gamification engine: points, bonuses, levels, badges, coupons, the
  leaderboard and ratings;
- the configuration tables;
- the small helpers: password encoding, phone formatting, truncation,
  percentages, weekend/morning tests, the shuffle and the QR-code data URL;
- the mock calling and messaging layer;
- the transit-direction generator;
- first-load seeding;
- the authentication store;
- the registration form's validation and submission.

Everything is a pure function over immutable values. Storage is one `Store`
value (`users`, `requests`, `currentUserId`), and each operation returns the
store it leaves. An operation that throws returns `Thrown(message)` and
writes nothing. Things the source reads from the environment become explicit
parameters:

- the clock is `now`, in integer milliseconds of local time;
- generated ids are `freshId`;
- `Math.random()` draws are a `roll` in [0, 1);
- the request history that gamification reads from storage is a `history` argument.

`Math.round(x)` is `floor(x + 1/2)`, taken on exact rationals or reals.
JavaScript's truncating `%` is written out where its operand can be negative.

Modules follow the source files:

| module | file |
|---|---|
| `Storage` | `src/lib/localStorage.ts` |
| `Gamification` | `src/lib/gamification.ts` |
| `Constants` | `src/lib/constants.ts` |
| `Utils` | `src/lib/utils.ts` |
| `Base64`, `Utf8` | the encodings behind `Buffer.from(password).toString('base64')` and `encodeURIComponent` in `src/lib/utils.ts` |
| `Communication` | `src/lib/communication.ts` |
| `Transit` | `src/lib/transitDirections.ts` |
| `Seed` | `src/lib/initSeedData.ts` |
| `Auth` | `src/store/authStore.ts` |
| `RegisterForm` | `src/app/auth/register/page.tsx` |

The shared modules are:

- `Types`: the records of `src/lib/types.ts`;
- `Time`: calendar day, hour and weekday of a timestamp;
- `Common`: filters, counting, strings, digits, rounding.

Three behaviours of the code that the model keeps as they are:

- The lifecycle operations (`acceptRequest`, `markRequestInProgress`,
  `completeRequest`, `cancelRequest`) never check the current status.
- The first-of-day bonus compares against the day of *now*, not the day of the
  request's completion.
- `updateHeroRating` counts only rated completions in `totalDeliveries`. It
  stores the rounded average but returns the hero with the unrounded one.

## Model

| member | source | states |
|---|---|---|
| Storage.GetUserById | src/lib/localStorage.ts:57-60 | the first stored user with the id; none only when no stored user has it |
| Storage.GetUserByEmail | src/lib/localStorage.ts:62-65 | the first stored user whose email matches ignoring case; none only when no stored email matches |
| Storage.CreateUser | src/lib/localStorage.ts:67-98 | throws "Email already registered" exactly when a stored email matches ignoring case, writing nothing; otherwise appends one user with the fresh id and time, the draft's fields, a stored password that accepts exactly the given password, zeroed hero statistics or an empty delivery history |
| Storage.CreateUserKeepsEmailsUnique | src/lib/localStorage.ts:62-73 | registration preserves the invariant that no two users share an email ignoring case |
| Storage.ApplyUserPatchLaws | src/lib/localStorage.ts:100-110 | the spread `{...user, ...updates}`: the empty patch changes nothing, a patch applied twice equals once, a whole-hero patch yields that hero |
| Storage.UpdateUser | src/lib/localStorage.ts:100-110 | unknown id: null and no write; otherwise only the first user with the id is replaced by its patched record, with id and type kept |
| Storage.DeleteUser | src/lib/localStorage.ts:112-120 | reports true exactly when a user has the id; afterwards the users are the old ones without that id, each other user as often as before, in order; false writes nothing |
| Storage.SetCurrentUserId | src/lib/localStorage.ts:127-129 | only the session pointer changes |
| Storage.GetCurrentUser | src/lib/localStorage.ts:131-134 | none when the pointer is unset or empty; otherwise the first stored user with that id, and none only when no stored user has it |
| Storage.Logout | src/lib/localStorage.ts:136-138 | the pointer is cleared, so no user is current; the collections stay |
| Storage.GetRequestById | src/lib/localStorage.ts:145-148 | the first stored request with the id; none only when no request has it |
| Storage.GetRequestsByStatus | src/lib/localStorage.ts:150-153 | exactly the stored requests in that status, each as often as stored, in stored order |
| Storage.GetRequestsByUser | src/lib/localStorage.ts:155-163 | exactly the requester's own requests, or those assigned to the hero, each as often as stored, in stored order |
| Storage.GetPendingRequests | src/lib/localStorage.ts:165-167 | exactly the pending requests, each as often as stored, in stored order |
| Storage.GetActiveRequestsForHero | src/lib/localStorage.ts:169-174 | exactly the hero's accepted or in-progress requests, each as often as stored, in stored order |
| Storage.CreateRequest | src/lib/localStorage.ts:176-199 | appends one pending, unassigned, unrated request with no lifecycle dates that carries the draft's fields |
| Storage.CreateRequestKeepsActiveCounts | src/lib/localStorage.ts:176-199 | a new request changes no hero's count of open requests |
| Storage.UpdateRequest | src/lib/localStorage.ts:201-211 | unknown id: null and no write; otherwise only the first request with the id is replaced by its patched record |
| Storage.AcceptRequest | src/lib/localStorage.ts:213-225 | throws "Maximum 3 active requests allowed" exactly when the hero holds three or more open requests, writing nothing; otherwise assigns, marks accepted and stamps, whatever the current status |
| Storage.AcceptRespectsCap | src/lib/localStorage.ts:169-174 | after a successful accept the hero holds at most three open requests and no other hero holds more than before |
| Storage.MarkRequestInProgress | src/lib/localStorage.ts:227-232 | marks in progress and stamps the first request with the id, whatever its status |
| Storage.InProgressCanExceedCap | src/lib/localStorage.ts:227-232 | reopening a hero's completed request adds one to that hero's open requests, so the cap is not an invariant of the store |
| Storage.CompleteRequest | src/lib/localStorage.ts:234-243 | marks completed and stamps; the rating becomes the given one, and an earlier rating is erased when none is given |
| Storage.CancelRequest | src/lib/localStorage.ts:245-251 | marks cancelled, stamps and records the reason |
| Storage.CancelledCanBeCompleted | src/lib/localStorage.ts:234-251 | a cancelled request can still be completed and then carries both dates |
| Storage.DeleteRequest | src/lib/localStorage.ts:253-261 | reports true exactly when a request has the id; afterwards the requests are the old ones without it, each other request as often as before, in order; false writes nothing |
| Storage.ClearAllData | src/lib/localStorage.ts:263-269 | no users, no requests, and the session pointer removed |
| Seed.ClearAllKeys | src/lib/localStorage.ts:263-269 | the users, requests and session keys are gone; the seed stamp and every other key are kept |
| Storage.ExportData | src/lib/localStorage.ts:272-278 | the snapshot holds the three stored values |
| Storage.ImportData | src/lib/localStorage.ts:280-286 | both collections are replaced; the pointer only when the snapshot carries a non-empty one |
| Storage.ImportExportRoundTrip | src/lib/localStorage.ts:272-286 | importing an export restores the store; onto another store exactly when the export has a session or the sessions already agree |
| Gamification.CalculatePoints | src/lib/gamification.ts:14-34 | between 100 and 400; exactly 100 when no bonus applies |
| Gamification.CalculatePointsAdditive | src/lib/gamification.ts:14-34 | each bonus adds its own 25, 50, 25 or 200 whatever the others are, so more bonuses never earn fewer points |
| Gamification.CheckWeeklyStreak | src/lib/gamification.ts:83-97 | true exactly when each of the seven days ending today holds a dated completion by the hero |
| Gamification.DetermineBonuses | src/lib/gamification.ts:39-78 | first-of-day iff the history holds no completion by the hero today; on time iff both dates exist and completion is no later; five stars iff so rated; streak iff each of the last seven days has a completion |
| Gamification.FirstOfDayNeverAfterCompletion | src/lib/gamification.ts:43-54 | when the request is first stored as completed (src/lib/localStorage.ts:234-243) and its bonuses are determined afterwards, as the hero completion page does, first-of-day is never earned |
| Gamification.DetermineBonusesCorrected | src/lib/gamification.ts:39-55 | first-of-day iff no *other* request was completed by the hero today; the other bonuses are unchanged |
| Gamification.FirstOfDayCorrectedAfterCompletion | src/lib/gamification.ts:39-55 | with the correction, the completion flow earns first-of-day exactly when the hero completed no other request that day |
| Gamification.CalculateLevel | src/lib/gamification.ts:119-127 | a non-negative total lies in the level returned; a negative one gives Beginner |
| Gamification.CalculateLevelUniqueAndMonotone | src/lib/gamification.ts:119-127 | the level returned is the only one holding the points, and more points never give a lower level |
| Gamification.AwardPoints | src/lib/gamification.ts:102-114 | adds exactly the points, sets the level to the index of the level the new total lies in (0 for a negative total), keeps every other hero field, and stores that record over the hero's |
| Gamification.GetLevelInfo | src/lib/gamification.ts:132-154 | current level follows the stored index, Beginner when the index is out of range; next level is the following index; points to next is next minimum minus points; progress is within half a percent of the exact share of the span; 100 and 0 to go at the top |
| Gamification.LevelInfoInRange | src/lib/gamification.ts:132-154 | a hero whose stored level matches its points, below the top, has progress in 0..100 and at least one point still to earn |
| Gamification.NewBadgesFollowCatalog | src/lib/gamification.ts:159-211 | the hard-coded thresholds 1, 5, 10, 25, 3, 5, 5, 10 are the catalog's requirements: new badges are the catalog entries not held whose metric meets the requirement, in catalog order |
| Gamification.CheckAndAwardBadges | src/lib/gamification.ts:159-221 | a badge is new iff it is not held and its criterion is met; new badges are distinct and in catalog order; nothing is written when none is new, otherwise the held badges followed by the new ones are stored |
| Gamification.CheckAndAwardBadgesIdempotent | src/lib/gamification.ts:159-221 | a second check on the updated hero with the same history finds no new badge |
| Gamification.GetAvailableCoupons | src/lib/gamification.ts:226-228 | exactly the tiers the points afford, which form a cheapest-first prefix of the catalog |
| Gamification.AffordablePrefixOf | src/lib/gamification.ts:226-228 | filtering any cost-ordered list by affordability keeps a prefix of it, since once one entry is too dear so is every later one |
| Gamification.ClaimCoupon | src/lib/gamification.ts:233-268 | "Coupon not found", then "Insufficient points", then "Coupon already claimed", in that order and with no write; otherwise the coupon carries a QR code of the hero's code, the claim time and a 90-day expiry, and the hero's points drop by the cost and its claimed list gains the id |
| Gamification.ClaimCouponKeepsPointsNonNegative | src/lib/gamification.ts:240-265 | a successful claim never takes points below zero and leaves the level as stored |
| Gamification.ClaimCanLeaveProgressNegative | src/lib/gamification.ts:132-154 | since a claim does not recompute the level, a level-2 hero spending all 1000 points sees a progress of -67 |
| Gamification.SortByKeyStable | src/lib/gamification.ts:288-293 | the sort is stable: heroes with equal keys keep their input order |
| Gamification.Leaders | src/lib/gamification.ts:286-293 | the heroes among the users and only they, each as often as in the input, sorted non-increasingly by the chosen key |
| Gamification.GetLeaderboard | src/lib/gamification.ts:282-303 | one entry per hero, the entries non-increasing in the chosen key, the i-th entry ranked i + 1 and carrying the i-th leader's id, name, points, deliveries and rating |
| Gamification.UpdateHeroRating | src/lib/gamification.ts:308-326 | with no rated completion the hero is returned and nothing written; otherwise the stored average is the mean rounded to a tenth and the count is the number of rated completions |
| Gamification.AverageRatingInRange | src/lib/gamification.ts:308-326 | with stars from 1 to 5 both the mean and its rounded value lie in [1, 5] |
| Constants.LevelTableContiguous | src/lib/constants.ts:18-24 | the level ranges start at 0, each ends one below the next start, and the last is unbounded |
| Constants.LevelsPartitionNaturals | src/lib/constants.ts:18-24 | every non-negative total lies in exactly one level |
| Constants.LevelOrderIncreasing | src/lib/constants.ts:26-32 | the order lists every level once, with strictly increasing minimums |
| Constants.BadgeCatalogKeyedById | src/lib/constants.ts:35-100 | the catalog holds exactly the listed ids, each under its own id |
| Constants.CouponTiersOrdered | src/lib/constants.ts:103-132 | tier ids are distinct, costs strictly increase, and each cost is the minimum of a level above the first |
| Utils.WeekendsRecurWeekly | src/lib/utils.ts:58-65 | the weekend test repeats every seven days and holds on exactly two of any seven consecutive days |
| Utils.MorningIsFirstTenHours | src/lib/utils.ts:67-70 | morning means less than ten hours of the day have passed |
| Utils.HashPassword | src/lib/utils.ts:76-79 | the stored text has length 4·⌈n/3⌉ for n UTF-8 bytes |
| Utils.VerifyPasswordExact | src/lib/utils.ts:84-86 | a stored password accepts the password it was made from and no other |
| Utils.HashPasswordReversible | src/lib/utils.ts:76-79 | decoding the stored text gives the password back |
| Utils.FormatPhoneNumber | src/lib/utils.ts:135-142 | ten digits give "(ddd) ddd-dddd" made of those digits in order; any other input is kept |
| Utils.FormatPhoneNumberIdempotent | src/lib/utils.ts:135-142 | formatting a formatted number changes nothing |
| Utils.Truncate | src/lib/utils.ts:147-150 | a text that fits is kept; otherwise its first `length` characters and "..." (a negative length counts from the end) |
| Utils.TruncateKeepsPrefix | src/lib/utils.ts:147-150 | a truncated text is a prefix of the original plus the ellipsis |
| Utils.Percentage | src/lib/utils.ts:155-158 | 0 for a zero total; otherwise within half a percent of the exact share, for a negative total as well, and in 0..100 when the value is within a positive total |
| Utils.EncodeUriComponentRoundTrip | src/lib/utils.ts:91-97 | decoding the percent-encoded text gives the data back |
| Utils.GenerateQrCode | src/lib/utils.ts:91-97 | an SVG data URL whose encoded body cannot close the text element early and decodes back to the data |
| Utils.RandomElement | src/lib/utils.ts:102-104 | an element of the array is drawn exactly when the array is non-empty |
| Utils.RandomElementReachesEvery | src/lib/utils.ts:102-104 | every position of a non-empty array is drawn by some roll in [0, 1) |
| Utils.ShuffleArray | src/lib/utils.ts:109-116 | the result is a rearrangement of the input, which is left as it was |
| Base64.DecodeEncode | src/lib/utils.ts:76-79 | Base64 decoding undoes the encoding of any byte sequence |
| Utf8.DecodeEncode | src/lib/utils.ts:76-79 | UTF-8 decoding undoes the encoding of any text |
| Communication.PrependCapped | src/lib/communication.ts:51-54 | the new entry first, then as many previous entries, in order, as fit under the cap |
| Communication.PrependKeepsNewestFirst | src/lib/communication.ts:51-54 | prepending an entry no older than the head keeps the list newest first and never past the cap |
| Communication.SimulatedCallDuration | src/lib/communication.ts:37 | a simulated call lasts from 180 to 479 seconds |
| Communication.SimulatedCallDurationCoversRange | src/lib/communication.ts:37 | every length from 180 to 479 seconds is reachable |
| Communication.MakePhoneCall | src/lib/communication.ts:29-59 | an outgoing call of simulated length with the given contact, request, time and id, logged first in the caller's log of at most 50; other users' logs and all messages stay |
| Communication.SendSms | src/lib/communication.ts:65-99 | a sent message with the given text, contact, request, time and id, stored first in the sender's list of at most 100; nothing else changes |
| Communication.SimulateIncomingSms | src/lib/communication.ts:104-135 | a received message holding the canned reply at index floor(roll times 6), with the given contact, request, time and id, stored first in the user's list of at most 100 |
| Communication.SimulateIncomingSmsReachesEvery | src/lib/communication.ts:119 | every canned reply is selected by some roll |
| Communication.GetSmsConversation | src/lib/communication.ts:164-170 | exactly the user's messages with that number, each as often as stored, in stored order |
| Communication.NewMessageOpensConversation | src/lib/communication.ts:164-170 | a stored message heads the conversation with its contact |
| Communication.NewMessageLeavesOtherConversations | src/lib/communication.ts:164-170 | a conversation with any other contact holds only messages stored before, in their order |
| Communication.FormatPhoneNumber | src/lib/communication.ts:175-186 | agrees with the helper library's phone formatter on every input |
| Communication.FormatCallDuration | src/lib/communication.ts:191-195 | for a non-negative length, "m:ss" reads back as the same number of seconds |
| Communication.FormatCallDurationInjective | src/lib/communication.ts:191-195 | different non-negative lengths never display alike |
| Transit.SuggestedRoute | src/lib/transitDirections.ts:80-81 | the suggested route is one of the six listed |
| Transit.SuggestedRouteCoversAll | src/lib/transitDirections.ts:80-81 | every listed route can be suggested |
| Transit.CalculateTransitDirections | src/lib/transitDirections.ts:28-146 | above 500 m the steps are walk, wait, walk, bus, walk; otherwise walk, wait, walk; totals are the step sums; the summary shows the total distance in kilometres rounded to a tenth and the total minutes; the first step goes to the bank and the last to the address before its first comma; bus steps carry a listed route |
| Transit.BusTotals | src/lib/transitDirections.ts:44-104 | the bus plan covers the distance plus 50 m, rides distance − 200, and takes 10 minutes plus ⌈(distance − 200)/400⌉ |
| Transit.WalkTotals | src/lib/transitDirections.ts:105-133 | the walking plan covers the distance give or take the rounding of its halves, and takes 5 + 2·⌈distance/160⌉ minutes |
| Transit.TransitTotals | src/lib/transitDirections.ts:135-136 | the plan's totals, case by case |
| Transit.FormatDuration | src/lib/transitDirections.ts:161-168 | "m min", "Hh" or "Hh Mm" reads back as the same number of minutes |
| Transit.FormatDurationInjective | src/lib/transitDirections.ts:161-168 | different non-negative durations never display alike |
| Seed.InitializeSeedData | src/lib/initSeedData.ts:11-41 | nothing changes when already stamped; otherwise each collection is seeded only when nothing is stored for it, and the version is stamped; other keys stay |
| Seed.SeedNeverOverwrites | src/lib/initSeedData.ts:24-36 | stored collections are never overwritten |
| Seed.InitializeSeedDataIdempotent | src/lib/initSeedData.ts:11-41 | a second run changes nothing |
| Seed.ResetAndReseed | src/lib/initSeedData.ts:46-57 | the seed collections are in place, no session key remains, the version is stamped, other keys stay |
| Seed.ClearedStampedStoreStaysEmpty | src/lib/localStorage.ts:263-269 | clearing the data keys but not the stamp leaves nothing to re-seed |
| Auth.Login | src/store/authStore.ts:34-58 | success exactly when the first stored user with the email (ignoring case) has a password that checks, and then the session names that user; failure: "Invalid email or password" for an unknown email and a wrong password alike, with user and store unchanged; never left loading |
| Auth.LoginSucceedsIff | src/store/authStore.ts:38-52 | with unique emails, sign-in succeeds exactly when some user has the email and the password checks |
| Auth.Register | src/store/authStore.ts:60-73 | succeeds exactly when the user is created, then signs it in and sets the session; on failure records the thrown message and keeps user and store |
| Auth.RegisterDuplicateFails | src/store/authStore.ts:68-72 | a registered email fails with "Email already registered" and changes nothing stored |
| Auth.RegisterThenLogin | src/store/authStore.ts:34-73 | right after registering, signing in with the same credentials succeeds as the new user |
| Auth.Logout | src/store/authStore.ts:75-78 | the session pointer, user and error are cleared |
| Auth.RefreshUser | src/store/authStore.ts:80-83 | the user reloaded is the first stored one the session names; none exactly when the pointer is unset, empty or names no stored user |
| Auth.RefreshAfterLogin | src/store/authStore.ts:80-83 | after a sign-in, with distinct non-empty ids, reloading finds the same user |
| Auth.ClearError | src/store/authStore.ts:85-87 | only the error is cleared |
| Auth.UseHero | src/store/authStore.ts:103-106 | the user, only when it is a hero |
| Auth.UseRequesterUser | src/store/authStore.ts:108-111 | the user, only when it is a requester |
| Auth.SelectorsPartition | src/store/authStore.ts:91-111 | a signed-in user is seen by exactly one typed selector; with nobody signed in, neither selector returns a user |
| RegisterForm.ValidateForm | src/app/auth/register/page.tsx:49-70 | each message is set exactly when its check fails; valid iff the password has six or more characters, matches its confirmation, and the email contains '@' |
| RegisterForm.ValidateFormReportsEveryProblem | src/app/auth/register/page.tsx:56-68 | three failing checks are all reported together |
| RegisterForm.Draft | src/app/auth/register/page.tsx:77-88 | the payload carries the form's fields, with a transport method only for heroes |
| RegisterForm.HandleSubmit | src/app/auth/register/page.tsx:72-100 | registers only when the form is valid and a type is chosen; redirects to that type's dashboard exactly when registration succeeds |
| RegisterForm.SubmittedUserWellFormed | src/app/auth/register/page.tsx:72-100 | a user registered through the form has a password of six or more characters, the chosen type and, for a hero, the chosen transport method |

## Left out

- Rendering, routing and hooks in the React pages and components. The leaderboard page's own ranking logic depends on `getTopHeroes`, which is not part of this model.
- Browser storage plumbing: JSON serialisation, the server-side guard, the try/catch that swallows storage errors, and the console logging of the seeding functions. The store is an immutable value; seeding works on a key-to-text map with the seed data as opaque text.
- Asynchrony. The intermediate `isLoading: true` state of `login` and `register`, timers and network delays are not kept; only the state an action settles in is modelled.
- `nanoid`, `Date` and `Math.random` are parameters: `freshId`, `now` and `roll`. Time is local milliseconds, and `toDateString()` is the calendar day `DayOf`.
- Floating point. Ratings, averages and coordinates are exact reals; `Math.round` is exact.
- `calculateDistance`, both `formatDistance` functions, `isToday`, `cn`, `debounce` and `getSMSTemplates` are left out: floating-point geometry or `toFixed`, library wrappers, timers, and a constant list.
- The GTFS real-time feed and the map components are left out: network access, protobuf decoding and Leaflet.
- Strings are sequences of Unicode scalar values. JavaScript's UTF-16 code units and lone surrogates are not modelled. `toLowerCase`/`toUpperCase` map ASCII letters only.
- Storage.UpdateUser: a patch cannot change a user's id or type, and hero fields only reach heroes.
- Storage.UpdateRequest: the patch covers only the lifecycle fields (hero, status, rating, dates, cancel reason), which is all the code base writes through it.
- Utils.ShuffleArray: states that the result is a permutation, not that every permutation is equally likely.
- Communication.SendSms: the 500 ms network delay and the automatic reply scheduled 5 to 15 seconds later are not modelled; the reply is `SimulateIncomingSms`, called on its own.
- Transit.CalculateTransitDirections: the straight-line distance is an input in whole metres, so the Haversine computation is not modelled.
- Utils.Percentage: the arguments are integers, so the fractional values and `NaN` a JavaScript number can carry are not modelled.
- Gamification.GetLevelInfo: a zero-width span, which gives `Infinity` or `NaN` in the source, is `None`.

## Findings

| source | as written | input that shows it | evidently intended | confidence | as-written member | corrected member |
|---|---|---|---|---|---|---|
| src/lib/gamification.ts:43-54 with src/app/hero/requests/[id]/page.tsx:89-103 | the first-of-day test counts every completion by the hero dated today, including the request being scored, which the completion flow stores as completed before determining bonuses | any hero completing their first request of the day through the completion flow: the stored history already holds it, so first-of-day is false | the first delivery of a day earns the bonus: leave the scored request out of the test | not executed; medium (the calling page currently discards the bonuses and awards a flat 100) | Gamification.FirstOfDayNeverAfterCompletion | Gamification.DetermineBonusesCorrected / Gamification.FirstOfDayCorrectedAfterCompletion |
