# Verified model of the QAAI algorithms and state machines

Dafny models of the small, stateful parts of the repository: the line diff an agent's proposal is shown with, the
demo store, the wiring checker, two bounded maps of the API process, the lightbox, the command palette's search, the
WebSocket frames, the record button, the mail catcher and the grouping of a plan's skipped entries.

Each file follows one part. What the source computes by changing state is a class or a method with the source's
fields and loops, proved against a specification function; lemmas then state what the source promises about that
function, for every input and over every sequence of requests or interleaving of replies. The small classes of the
cache, the counter, the lightbox and the record button have no row below: each of their methods is proved equal to the
step its lemmas speak of.

| file | part |
|---|---|
| `LineDiff.dfy` | LCS table, greedy walk and drains; minimal, and the one minimal script that is least in dictionary order |
| `Money.dfy` | catalogue, totals, the planted bug, money rendered and read back, the seeded test |
| `Shop.dfy`, `ShopServer.dfy` | the demo store's requests as steps; the process with mutable cart lines that refines them |
| `ShopRuns.dfy`, `ShopSignIn.dfy`, `ShopMail.dfy`, `ShopCodes.dfy` | carts and orders, sign-in, mail, and codes read out of mail, over every run of the store |
| `Mailbox.dfy` | the bounded mailbox as the newest part of an unbounded log; reading a code out of a mail |
| `Routes.dfy`, `WalkOrder.dfy` | path joining and the walk over routers mounted on routers; the order of its output |
| `Ratchet.dfy` | known gaps, repeated findings and the exit code |
| `ModeCache.dfy`, `CspCounter.dfy` | the security-mode cache under interleaved lookups; the capped violation counter |
| `Lightbox.dfy` | pan and zoom over the reals |
| `FuzzyMatch.dfy` | subsequence score and ranking |
| `WsFrame.dfy` | text frames against sections 5.2 and 5.3 of RFC 6455 |
| `Recorder.dfy` | starts, polls, saves and cancels in any order |
| `PlanSkipped.dfy` | grouping by suffix, and its inverse |
| `Text.dfy` | decimal digits, ASCII case and space |

`dafny verify dfyconfig.toml` checks the whole project.

Where the code and its comments differ, the code is followed:

- `joinPath` ends with a guard for an empty result that can never be taken, because an empty subpath already adds a slash.
- The lightbox promises its range and edges "at any zoom", but refits only a box with width. Both are lost at a resize or a load exactly when `Lightbox.IsSafe` fails, for a box that has no width; `Lightbox.CollapsedBoxEscapes` loses the range and `Lightbox.CollapsedBoxLosesEdges` the edges.
- The ratchet's "one line per thing" joins three fields with a bar. No check name in the script holds one, and then a key names one thing (`Ratchet.KeysIdentify`); `Ratchet.BarsCollide` gives, for any names, exactly the pairs that share a key.
- A cancelled recording goes on if its session id had not arrived yet: a cancel ends exactly the sessions already named (`Recorder.CancelEndsTheNamed`), and `Recorder.EarlyCancelStopsNothing` is a run in which it ends none.
- A code is read out of the newest mail at its address, which need not be the one that brought it: after an order to the same address the order's number is read instead (`ShopCodes.OrderHidesTheCode`); `ShopCodes.OrderAfterCode` is a run that ends so.

## Model

| member | source | states |
|---|---|---|
| LineDiff.FillTable | apps/web/components/AgentPanel.tsx:64-72 | every cell of the table the nested loops fill is the LCS length of the two suffixes it stands for |
| LineDiff.DiffLines | apps/web/components/AgentPanel.tsx:74-93 | the three loops produce the recursive walk, drains included |
| LineDiff.DiffIsMinimal | apps/web/components/AgentPanel.tsx:62-93 | the ' ' and '-' lines spell the old text, the ' ' and '+' lines the new; the ' ' lines are a longest common subsequence; no script that turns one text into the other has fewer changed lines |
| LineDiff.LcsBoundsCommon | apps/web/components/AgentPanel.tsx:62-72 | no common subsequence is longer than the table says |
| LineDiff.LcsSteps | apps/web/components/AgentPanel.tsx:67-72 | the table is monotone in both directions with steps of at most one |
| LineDiff.WalkKeepsLcs | apps/web/components/AgentPanel.tsx:77-89 | the walk realises the length the table promises |
| LineDiff.DiffIsTheLeastMinimalScript | apps/web/components/AgentPanel.tsx:77-91 | canonical: a script is the diff if and only if it is minimal and first, with ' ' before '-' before '+', among all minimal scripts |
| LineDiff.NoInsertBeforeDelete | apps/web/components/AgentPanel.tsx:82-91 | no '+' line is ever immediately followed by a '-' line |
| LineDiff.JoinSplit | apps/web/components/AgentPanel.tsx:59-60 | joining the lines of any text gives the text back |
| LineDiff.SplitIsLines | apps/web/components/AgentPanel.tsx:59-60 | no line holds a newline |
| LineDiff.SplitJoin | apps/web/components/AgentPanel.tsx:59-60 | splitting joined lines gives them back, so a text has only one splitting into lines |
| LineDiff.DiffTexts | apps/web/components/AgentPanel.tsx:58-94 | for any two texts, the diff read back line by line is the old text and the new text exactly; every line is free of newlines, and the old side has no line at all exactly when the old text is empty |
| LineDiff.WalkFromNothing | apps/web/components/AgentPanel.tsx:58-59 | the diff of a new file is its lines in order, each inserted, and no deleted blank line before them |
| Money.TaxIsNearest | apps/demo/src/store.ts:123-125 | tax is the unique nearest cent to eight per cent, within 0.48 cents, so no subtotal is a rounding tie |
| Money.TotalDropsAtMost699 | apps/demo/src/store.ts:119-125 | tax is monotone; a larger subtotal lowers the total only across the free-shipping threshold and by at most 699 cents, reached only from 149.99 to 150.00 |
| Money.SubtotalAddsUp | apps/demo/src/store.ts:112-117 | any line, wherever it stands, adds its product's price times its quantity to the subtotal, and nothing when its product is unknown |
| Money.CheapestIs | apps/demo/src/store.ts:147-152 | the price the bug drops is the least among the lines with a known product, for any lines |
| Money.CartShips | apps/demo/src/store.ts:119-121 | on any cart the routes can build shipping is 7.00, and free exactly from 150.00 on and for an empty cart |
| Money.ParseFormat | apps/api/prisma/seed.ts:54-57 | reading back a rendered amount is the identity on every number of cents |
| Money.OnlyMoneyCharsMatter | apps/api/prisma/seed.ts:54-57 | a character other than a digit, a dot or a minus changes no reading, and only a missing text throws |
| Money.LongestWholeIsRead | apps/api/prisma/seed.ts:54-57 | a text that begins with digits reads as them, up to whatever does not go on with the number; a minus turns the sign, and without digits there is no number |
| Money.LongestDecimalIsRead | apps/api/prisma/seed.ts:54-57 | with a point and digits after it they are read too, digits before it or not |
| Money.WholeNumbersRead | apps/api/prisma/seed.ts:54-57 | a number without a decimal point reads as that many dollars |
| Money.SeededCheckCharacterised | apps/demo/src/store.ts:139-154 | for any lines, known products or not, the seeded test passes exactly when the bug is off, there are fewer than two lines, or the line dropped costs nothing |
| Money.PlantedBugIsDetected | apps/api/prisma/seed.ts:74-83 | on a non-empty cart the routes can build, the seeded test fails exactly when the bug is on and the cart has two lines |
| Money.ShippedCatalogue | apps/demo/src/store.ts:43-84 | every id's product, price and stock, and none for any other id |
| Money.SeededCart | apps/api/prisma/seed.ts:65-83 | on the shipped catalogue the seeded test's own cart shows $75.04, and $57.04 with the bug, which the test then reports |
| ShopServer.Server.constructor | apps/demo/src/store.ts:171-173 | a fresh process is the fresh state |
| ShopServer.Server.HandleAdd | apps/demo/src/index.ts:155-175 | the handler that changes a line in place or pushes one moves the state by exactly its step |
| ShopServer.Server.SetQuantity | apps/demo/src/index.ts:169-171 | changing a line in place changes one cart and no other: lines are never shared |
| ShopServer.Server.HandleRemove | apps/demo/src/index.ts:177-184 | the filter moves the state by exactly its step |
| ShopServer.Server.HandleCheckout | apps/demo/src/index.ts:210-267 | empty cart, missing field, unknown product and placed order each move the state by exactly its step |
| ShopServer.Server.HandleLogin | apps/demo/src/index.ts:296-315 | password sign-in, with the redirect to the local path asked for |
| ShopServer.Server.HandleRequestOtp | apps/demo/src/index.ts:322-338 | a code request replaces the pending code and mails it |
| ShopServer.Server.HandleVerifyOtp | apps/demo/src/index.ts:340-367 | a verification rejects, or burns the code and then signs in or not |
| ShopServer.Server.HandleReset | apps/demo/src/index.ts:409-413 | a reset is the fresh state with an emptied mailbox whose numbering goes on |
| ShopServer.Server.Handle | apps/demo/src/index.ts:155-413 | every request, and every mail delivered over SMTP, moves the process, shared cart lines and all, exactly as its step moves the state |
| ShopRuns.AddOutcome | apps/demo/src/index.ts:155-175 | a request to add is answered 400 for an unknown or sold-out product; otherwise that product's quantity, and no other, rises by what was asked, at least one, up to the stock |
| ShopRuns.RemoveDropsOneQuantity | apps/demo/src/index.ts:177-183 | removing takes one product out and leaves the rest |
| ShopRuns.RunKeepsInv | apps/demo/src/index.ts:155-267 | in every reachable state carts hold distinct, known, stocked products; orders are non-empty, numbered from 1001 without a gap, and every amount follows from the order's own lines |
| ShopRuns.PlacedOrderIsOrder | apps/demo/src/index.ts:235-253 | a placed order prices the cart's lines from the catalogue, sums them, and with the bug on drops its cheapest line |
| ShopRuns.CheckoutOutcome | apps/demo/src/index.ts:210-267 | in a reachable state: back to an empty cart, 400 when one of the six fields is blank, and otherwise exactly one order more, with the cart's products and quantities, the next number, the trimmed address and the time, and an empty cart |
| ShopRuns.OrderIdsAreUnique | apps/demo/src/index.ts:237-255 | no two orders of a reachable state share an id |
| ShopRuns.OrdersOnlyGrow | apps/demo/src/index.ts:255-256 | without a reset, orders already placed stay as they are, where they are |
| ShopRuns.CartDependsOnOwnRequests | apps/demo/src/index.ts:100-102 | isolation: a session's cart is the fold of its own requests and the resets, whatever the other sessions do |
| ShopRuns.BugDetectedOnReachableCarts | apps/demo/src/index.ts:113-121 | for every run and session, the seeded test fails on the session's non-empty cart exactly when the bug is on and it has two lines |
| ShopSignIn.AcceptedIffLatestAndFresh | apps/demo/src/index.ts:340-355 | over every run, a code is accepted exactly when it is the one of the latest request for the address since a reset, not yet used, and at most ten minutes old |
| ShopSignIn.LoginOutcome | apps/demo/src/index.ts:296-315 | a password sign-in is answered 401 exactly when no account has that address and password, and then changes nothing; otherwise the session is such an account's |
| ShopSignIn.AddressIs | apps/demo/src/index.ts:297-300 | an address is what was typed, without the space around it, in lower case |
| ShopSignIn.RedirectsStayLocal | apps/demo/src/index.ts:313-314 | every redirect of every request is to a path that begins with one slash; a sign-in goes where it was asked to exactly if that does, and to the account otherwise |
| ShopSignIn.CodesAreUsedOnce | apps/demo/src/index.ts:322-355 | between two accepted codes for one address there is a new request |
| ShopSignIn.VerifySignsIn | apps/demo/src/index.ts:340-367 | over every run, a verification signs in to an account, and redirects there, exactly when the address has that account and the code is that of its latest request, unused since and in time |
| ShopSignIn.SessionsAreEarned | apps/demo/src/index.ts:296-367 | a session is signed in to an account exactly when its latest sign-in, by password or accepted code, was to that account with no sign-out or reset since |
| ShopCodes.MailedCodeIsAccepted | apps/demo/src/index.ts:322-355 | over every run: while a request is pending its mail is the newest at the address exactly until another mail reaches the address or 200 of any kind follow; until then the code read out of it is accepted exactly for ten minutes |
| ShopCodes.ReadCodeIsAccepted | apps/demo/src/index.ts:326-355 | over every run, the code read out of the newest mail at an address is accepted exactly when a request of at most ten minutes ago is pending and that mail is the request's own or a later one showing the same code |
| ShopCodes.OrderHidesTheCode | apps/demo/src/index.ts:255-264 | with an order mailed last to the address its number is what is read, accepted exactly if the pending code is that number in six digits; numbers of nine digits or more are passed over and the total is read |
| ShopCodes.OrderAfterCode | apps/demo/src/index.ts:326-337 | for any stocked product and complete form: an item, a code, then an order to the same address, and 1001 is read in place of the code and rejected |
| ShopMail.ShopMailIsLogPrefix | apps/demo/src/mailbox.ts:62-84 | the mailbox shared by the store and the SMTP listener is the newest 200 of one mail per placed order, requested code and delivered message since the last reset |
| ShopMail.LatestMailIs | apps/demo/src/mailbox.ts:42-50 | over every run, the mail an address reads is that of the last event that mailed to it, if since then there was no reset and fewer than 200 mails, and there is none otherwise |
| ShopMail.OrderIsMailed | apps/demo/src/index.ts:255-266 | a placed order is the newest mail at its address, and the redirect names it |
| ShopMail.CodeIsMailed | apps/demo/src/index.ts:326-335 | a requested code is the newest mail at the address that asked, worded as sent |
| Mailbox.Catcher.Add | apps/demo/src/mailbox.ts:30-39 | prepends the numbered message and cuts the list at 200 |
| Mailbox.Catcher.List | apps/demo/src/mailbox.ts:42-46 | the filter by recipient, everything for an absent or empty one |
| Mailbox.ListedIs | apps/demo/src/mailbox.ts:42-46 | the list holds, in order, exactly the mails whose recipient reads the same but for case, and all of them for an absent or empty recipient |
| Mailbox.BoxIsLogPrefix | apps/demo/src/mailbox.ts:24-55 | after any adds and clears the box is the first 200 entries of the unbounded newest-first log since the last clear |
| Mailbox.BoxIsNewestFirst | apps/demo/src/mailbox.ts:33-37 | sequence numbers strictly decrease along the box |
| Mailbox.IdsNeverReused | apps/demo/src/mailbox.ts:28-33 | no two adds of a run get the same id, clears between them or not |
| Mailbox.LatestIsNewest | apps/demo/src/mailbox.ts:48-50 | the latest mail for an address is the newest logged for it, if among the last 200 |
| Mailbox.ExtractCodeIsFirst | apps/demo/src/mailbox.ts:87-89 | the code extracted is the first span of four to eight digits with no letter, digit or underscore on either side, for any text; there is none exactly when the text has no such span |
| Routes.JoinPathHasOneSlash | scripts/check-wiring.ts:341-346 | a prefix and a path that begins with a slash join to the two strung together, a slash at the prefix's end or not |
| Routes.JoinPathAddsSlash | scripts/check-wiring.ts:341-346 | a path without its slash joins as the path with it |
| Routes.JoinPathAssociative | scripts/check-wiring.ts:341-346 | joining paths is associative, for all strings |
| Routes.JoinOrderDoesNotMatter | scripts/check-wiring.ts:366-377 | a route's path is the same joined from the root inward or from the route outward |
| Routes.Declared | scripts/check-wiring.ts:349-380 | terminates on every mount graph, only adds to the shared set, and always marks its own router |
| Routes.DeclaredIn | scripts/check-wiring.ts:349-380 | the recursive method over the shared mutable set computes the walk |
| Routes.WalkSeesTheReachable | scripts/check-wiring.ts:349-380 | from a fresh set exactly the routers reachable from the root are seen, cycles or not; each is expanded once, all its verbs in order under the prefix of the trail of mounts that comes first in dictionary order among those that meet no router twice; no other route appears |
| Routes.FirstTrailIsUnique | scripts/check-wiring.ts:366-377 | that trail is unique, so every router's prefix is determined |
| WalkOrder.WalkIsInOrder | scripts/check-wiring.ts:349-380 | the walk's whole output is one block of routes for each reachable router, each once, in dictionary order of their first trails |
| WalkOrder.RollIsUnique | scripts/check-wiring.ts:349-380 | a file has only one such list of routers and trails, so the output is determined route by route |
| Routes.DeclaredUnderPrefix | scripts/check-wiring.ts:366-377 | mounting a router under a longer prefix prefixes every route below it and changes nothing else |
| Ratchet.Checker.Downgrade | scripts/check-wiring.ts:2454-2458 | every matching failure becomes a warning, and whether there was one |
| Ratchet.Checker.DropRepeats | scripts/check-wiring.ts:2466-2472 | the backward splice in place leaves the last finding of every key |
| Ratchet.Checker.ApplyKnownGaps | scripts/check-wiring.ts:2445-2475 | both passes over the shared list |
| Ratchet.DowngradesTheKnown | scripts/check-wiring.ts:2449-2463 | a finding becomes a warning exactly when it failed and the gap of its own check and thing is listed |
| Ratchet.GapsSplit | scripts/check-wiring.ts:2449-2463 | distinct gaps split in order into those some failure of that check and thing bears out and those none does |
| Ratchet.KeepsTheLast | scripts/check-wiring.ts:2465-2472 | what is kept, in order, is exactly the findings whose key never comes again |
| Ratchet.KeysIdentify | scripts/check-wiring.ts:2469 | without bars in check names equal keys mean equal check, thing and severity |
| Ratchet.KeysAgree | scripts/check-wiring.ts:2469 | keys are equal exactly when severities are and check and thing read the same joined by a bar |
| Ratchet.BarsCollide | scripts/check-wiring.ts:2469 | keys are equal exactly when all three fields are, or one check name takes in, after a bar, the head of the other's thing |
| Ratchet.GreenIffRatchetHolds | scripts/check-wiring.ts:2487-2563 | the exit code is 0 exactly when every failure is a known gap and every known gap, listed once, still fails |
| ModeCache.AnswersAreFresh | apps/api/src/index.ts:262-297 | under every interleaving of lookups, writes, clock and resets, each answer was the stored value at some instant later than a minute before its call and no later than the answer; at most 1000 entries are held |
| ModeCache.StaleAnswerExists | apps/api/src/index.ts:279-297 | the bound is sharp: a value overwritten 59 999 ms before the call can be the answer |
| CspCounter.Named | apps/api/src/index.ts:401-403 | the key is the first 80 characters of what was reported, all of it when shorter, and "unknown" when nothing was |
| CspCounter.CountsAddUp | apps/api/src/index.ts:387-409 | after any reports the counts sum to their number, under at most 33 keys, 33 only with the overflow |
| CspCounter.ExactOrAbsent | apps/api/src/index.ts:400-409 | a directive other than the overflow is counted exactly if first reported while fewer than 32 others had been, and is otherwise absent |
| Lightbox.Run | apps/web/components/Lightbox.tsx:110-162 | every run of zooms, drags, fits, resizes and loads keeps the invariant: a positive scale of at most 8, and both bounds whenever the box has width |
| Lightbox.StepIsWithinIffSafe | apps/web/components/Lightbox.tsx:95-162 | a step keeps the scale in [min(0.1, fit), 8] and the pan within the overflow exactly when it is no resize to, or load in, a box without width that the scale or the height's edges do not fit |
| Lightbox.RunsStayWithin | apps/web/components/Lightbox.tsx:95-162 | in a box with width both bounds always hold; a run keeps them throughout exactly when it meets no unsafe resize or load |
| Lightbox.CollapsedBoxEscapes | apps/web/components/Lightbox.tsx:158-162 | a box collapsed to no width is not refitted and can leave the scale below its range |
| Lightbox.CollapsedBoxLosesEdges | apps/web/components/Lightbox.tsx:158-162 | one that also grows taller can leave the pan outside its edges |
| Lightbox.WithinMeansCoveredOrCentred | apps/web/components/Lightbox.tsx:90-99 | within bounds means exactly: a larger image covers the box edge to edge, a smaller one is centred |
| Lightbox.ClampIsNearest | apps/web/components/Lightbox.tsx:95-102 | clamping keeps every pan within bounds and moves any other no further than needed |
| Lightbox.FitIsLargest | apps/web/components/Lightbox.tsx:47-52 | the fit is the largest scale up to 1 that shows the whole image |
| Lightbox.PanIsZeroAtFit | apps/web/components/Lightbox.tsx:95-107 | at the fit scale the pan is zero |
| Lightbox.ZoomIsNearest | apps/web/components/Lightbox.tsx:110-115 | a zoom reaches the scale asked for, or the nearest between min(0.1, fit) and 8 |
| Lightbox.KeyboardZoomKeepsPan | apps/web/components/Lightbox.tsx:110-134 | a zoom without a cursor keeps the pan, or moves it no further than the new edges ask |
| Lightbox.DoubleClickToggles | apps/web/components/Lightbox.tsx:435-439 | a double click goes to full size from within a thousandth of the fit, and to the fit from anywhere else |
| Lightbox.DoubleClickTwice | apps/web/components/Lightbox.tsx:435-439 | on a fitted image shown smaller, two double clicks anywhere restore the view |
| Lightbox.PressTakesHold | apps/web/components/Lightbox.tsx:411-415 | a press starts a drag exactly when the image overflows by more than a pixel on some axis |
| Lightbox.ReleaseLetsGo | apps/web/components/Lightbox.tsx:417-433 | only the pointer that holds the image lets go of it, and after that no move pans |
| Lightbox.LoadAndResizeFit | apps/web/components/Lightbox.tsx:150-162 | a capture that loads, and a box that changes around one, show the whole image at its fit |
| Lightbox.ZoomFixesCursorPoint | apps/web/components/Lightbox.tsx:109-127 | a zoom keeps the image point under the cursor exactly when its pan needs no clamping |
| Lightbox.ZoomBackRestores | apps/web/components/Lightbox.tsx:113-131 | zooming and zooming back about one cursor restores the view if the first zoom was not clamped |
| Lightbox.DragIgnoresPath | apps/web/components/Lightbox.tsx:411-423 | a drag depends on its ends only, however far it strayed between |
| FuzzyMatch.FuzzyScore | apps/web/components/CommandPalette.tsx:33-58 | the loop computes the score, or null |
| FuzzyMatch.MatchesIffSubsequence | apps/web/components/CommandPalette.tsx:43-45 | a score comes back exactly when the lowercased needle is a subsequence of the lowercased haystack |
| FuzzyMatch.HitsAreEarliest | apps/web/components/CommandPalette.tsx:43-53 | the hits are an embedding and one by one the earliest any embedding has |
| FuzzyMatch.ScoreBounds | apps/web/components/CommandPalette.tsx:47-57 | the score lies between the length term and three more per needle character, and equals it exactly on a prefix |
| FuzzyMatch.ScoreCountsGaps | apps/web/components/CommandPalette.tsx:47-49 | beyond the length term the score is one per gap closed at a word boundary and three per other gap |
| FuzzyMatch.ShownAreTheBest | apps/web/components/CommandPalette.tsx:83-94 | at most 60 matches are shown, best first, ties in list order, and no match left out ranks before one shown |
| FuzzyMatch.BlankShowsTheFirst | apps/web/components/CommandPalette.tsx:83 | for a blank query the first 60 items are shown in list order |
| FuzzyMatch.ItemMatches | apps/web/components/CommandPalette.tsx:84-89 | an item matches exactly when the query splits into a part found in its caption and a blank, and a part found in its detail, case aside |
| WsFrame.WriterIsMinimal | apps/demo/src/protocols.ts:169-180 | the frame is a final text frame whose length field is the shortest section 5.2 of RFC 6455 has |
| WsFrame.ReadWritten | apps/demo/src/protocols.ts:169-195 | reading a written frame gives the payload back whatever follows it |
| WsFrame.ReadMasked | apps/demo/src/protocols.ts:183-199 | reading the client form of section 5.3, under any mask and with any trailing bytes, gives the payload |
| WsFrame.ReadUnmasks | apps/demo/src/protocols.ts:197-199 | in any masked text frame each payload bit read is the bit sent, turned over exactly where the mask's bit in turn is 1 |
| WsFrame.XorIsBitwise | apps/demo/src/protocols.ts:199 | a bit of the exclusive or is set exactly when the two bits differ; a byte is known by its bits |
| WsFrame.ReadOutcome | apps/demo/src/protocols.ts:183-195 | for any bytes: null exactly for fewer than two or an opcode other than text, an error exactly when the 16-bit length is missing, and unmasked the announced payload cut at the end of the buffer |
| WsFrame.FramesDiffer | apps/demo/src/protocols.ts:169-180 | frames are self-delimiting |
| Recorder.CancelIsFinal | apps/web/components/RecordButton.tsx:69-144 | in every interleaving, once a cancel has met session s as the current one, s is deleted once by it and never again, and no later reply begins to save s or makes it current |
| Recorder.SavesAreCurrent | apps/web/components/RecordButton.tsx:69-91 | over every run, a save of s begins exactly when a poll of s answers ready with code while s, started before, has since been neither cancelled, nor superseded, nor ended by any save that succeeded |
| Recorder.CancelEndsTheNamed | apps/web/components/RecordButton.tsx:134-144 | whatever came before and comes after, a cancel ends the saves of exactly the sessions the server has already named, superseded ones included |
| Recorder.CancelStopsAllUnlessStarting | apps/web/components/RecordButton.tsx:134-143 | without a new start, no save at all follows a cancel exactly when no start still awaited its reply |
| Recorder.PollingEnds | apps/web/components/RecordButton.tsx:38-107 | after a cancel, an unmount, a finished recording or an error, whatever comes later, the button's interval never asks again |
| Recorder.NothingIsLost | apps/web/components/RecordButton.tsx:56-132 | over every run each start is waiting, has failed or has named one session, and each save begun is waiting or answered |
| Recorder.UnmountDeletes | apps/web/components/RecordButton.tsx:38-52 | a button that goes away deletes the session it holds, once, and no other |
| PlanSkipped.GroupSkipped | apps/web/lib/plan-skipped.ts:108-137 | the two loops produce the sections of the specification |
| PlanSkipped.AtMostOneTag | apps/web/lib/plan-skipped.ts:51-73 | an entry carries at most one declared suffix, so the order of the search does not matter |
| PlanSkipped.RestoredIsInGroup | apps/web/lib/plan-skipped.ts:112-125 | putting a group's suffix back gives the input's entries of that group in input order |
| PlanSkipped.GroupingIsInvertible | apps/web/lib/plan-skipped.ts:108-137 | restored, all sections together are a permutation of the input |
| PlanSkipped.SectionsAreOrdered | apps/web/lib/plan-skipped.ts:127-136 | sections come in reading order with OTHER first, each once, none empty |
| PlanSkipped.ShippedGroups | apps/web/lib/plan-skipped.ts:51-73 | an entry is in the group of the one declared suffix it ends with, spelled out, and otherwise in OTHER |
| PlanSkipped.ShippedOrder | apps/web/lib/plan-skipped.ts:127-136 | the page reads OTHER, not yet storable, not enumerated, not applicable, in that order |

## Left out

- React rendering, effect scheduling, focus, Monaco and styling: a resize or a load is one step together with the refit it causes.
- Express, Prisma, Redis, the SMTP dialogue, file walking and process signals: requests and delivered mails are method calls, the database is a changing map, and clocks, random numbers and fresh ids are parameters.
- Regular expressions over source text in the wiring checker: `Routes` starts from what they find, a map from identifiers to verbs and mounts.
- SHA-1, AES-GCM, scrypt, JSON, URL codecs and UTF-8: frames carry bytes.
- Session cookies: a request arrives with its session id.
- Orders as heap objects: the source builds fresh line objects for an order and never assigns their fields, so orders are values, apart from cart lines by type.
- `GET` pages of the store and product search: they read state and change none.
- Money.TaxCents: exact arithmetic in place of doubles; `Money.TaxIsNearest` shows no subtotal comes near a tie. `Money.ParseMoney` likewise rounds an exact decimal.
- Money.SubtotalCents: takes any catalogue whose products cost at least a cent; the shipped table is one.
- Text.Lower: lower case and white space are those of ASCII.
- FuzzyMatch.Score: exact hundredths in place of doubles, so a tie is an exact tie; needle characters outside the basic plane, which the loop takes two units at a time, are not modelled.
- Lightbox.Step: reals in place of doubles.
- ModeCache.AnswersAreFresh: the clock is taken never to run backwards.
- WsFrame.ReadUnmasks: nothing is claimed for frames with length code 127 or masked ones cut short; the reader's behaviour on them is modelled as it is.
- Recorder.CancelIsFinal: nothing is claimed about two polls of one session in flight at once, which can both begin a save.
- Ratchet.GapsSplit: stated for distinct gaps, as the shipped list is; a repeated gap is stale on its second turn.
- PlanSkipped.Sections: carries the group only; a section's label and note are constants of its tag.
- Gate, runner list, run causes, coverage gaps, suite health and enum comparisons: their claims follow from one branch or filter each.
