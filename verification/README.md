# rustynail: a verified model of the message gateway

This project models the parts of the gateway that carry state or parse text, and proves
what they promise over every input and every run.

- **Approvals** (`Replies`, `Approval`, `ApprovalSafety`, `ApprovalRuns`, `Gate`). The
  registry is a class whose methods are proved against functions on registry values. Around
  it stands a transition system of begins, replies, the waiter's separate steps (poll,
  locked cleanup, log), abandonments and the clock, and around that the plan gate. Request
  ids are unique, the clock does not go back, and a waiter polls its channel before its timer.
- **Outbound text** (`Formatter`, `CodeBlocks`, `BlockPreservation`, `Rewriting`, `Markdown`,
  `Utf8`, `Chunker`). The rewrites are generic functions: over characters they are the string loops
  of the source, over `Item`s they treat a protected code block as one symbol. Chunking works
  on bytes, with well-formedness from section 4 of RFC 3629.
- **Caps** (`SpendScanner`, `TimeZone`, `Deadline`, `Caps`, `CapsExamples`). The scanner, the
  time-unit and deadline readers and the whole parse. Numbers are exact reals, a zone is a list
  of offset changes, instants count nanoseconds. What these readers make of a text is stated on
  the text itself: the digits of a number (`Numbers`), the ways to write an amount (`Amounts`),
  the words for a day and the clock (`DeadlineWords`), spends, durations and limits
  (`CapsWords`).
- **Policy** (`Scope`, `Policy`). Scope tags with their canonical key, and the clamping of
  requested caps with its disclosure records.
- **Limiter, duplicate window, pipeline** (`RateLimiter`, `Deduplicator`, `Pipeline`,
  `PipelineRuns`, `Gateway`). The limiter reads the clock up to three times in a call. Messages
  are handled concurrently, one step for each await point, composed with the gated runs.

## Where the code differs from what is said about it

- A ticket dropped without waiting (a plan message that could not be sent) leaves its entry in
  the map exactly until the same sender begins another request, not until it expires
  (src/quarry/approval.rs:538-545, `AbandonedEntryStays`, `UndeliveredEntryOutlivesDeadline`).
  That sender's messages are exempt from deduplication all that time (`LeftOverDisablesDedup`).
- The exemption of a reply from the limiter does not end with the reply
  (src/gateway/mod.rs:1289-1294). Exempt are exactly the messages whose check finds an approval
  registered and whose offer finds one in time, settled or not (`ExemptExactly`). So an
  abandoned entry exempts its sender until its deadline (`LeftOverExemptsUntilDeadline`), and a
  settled one in time as long as its waiter has not cleaned up (`SettledEntryStillExempts`).
- Settling does not clear the entry; the waiter's cleanup does. A reply reported as settling
  decides the request exactly when the ticket is still held open and its entry unanswered
  (`SettlingDecidesExactly`). A second reply is acknowledged and ignored, and a reply to a
  request nobody waits for is acknowledged and lost (`SettledRepliesCanBeIgnored`).
- `chunk` does not end for every limit: it ends exactly when every character that is not white
  space fits a chunk (`LoopEndsIffCharactersFit`, `WideCharacterNeverEnds`), which a limit of
  four always gives.
- The limiter is described as a sliding window. It restarts fixed windows. It keeps the
  configured quota in every interval of a window's length exactly when the window is empty, or
  the quota is at least one and the window is one clock unit (a nanosecond) long, or the quota
  is one and each call reads the clock once (`SlidesExactly`). Otherwise such an interval can
  hold two quotas, or one fewer when each call reads the clock once (`BoundIsReached`), and
  never more (`BurstIsBounded`). A quota of none still admits one call a window
  (`NoQuotaStillAdmits`).
- A window of capacity zero never forgets (`ZeroCapacityNeverForgets`), and two users can share
  a key exactly when one id followed by a colon begins the other (`KeysIdentifyMessages`).
- A permitted request for no limit passes an operator's maximum, and so does a default that
  breaks it (`SpendStaysWithinMaximum`, `LatencyStaysWithinMaximum`, `MaximumsCanBePassed`).
- A weekday deadline lands on the day after exactly when one change skips both its minute and
  the last minute of its day (`WeekdayLandsOnItsDay`, `SomeGapsCrossMidnight`). A skipped time
  with no shown minute in the next three hours has no instant (`DeadlinesAreAhead`,
  `CloseJumpsLoseTheDeadline`).
- "Within 0 milliseconds" is accepted as a latency cap of zero (`LatencyIsPositiveExactly`,
  `ZeroLatencyIsAccepted`).
- A deadline is read only behind the first trigger of the list that stands free, and one behind
  another trigger is dropped without a question (`HeardExactly`, `DeadlineBehindIsDropped`).
- Formatting without a rewrite can damage a text: when two neighbouring fences have nothing but
  the name of an earlier token between them, and on text free of NUL only then
  (`IdentityRewriteReturnsInput`, `NamedTokenIsMisread`).

## Model

| member | source | states |
|---|---|---|
| Text.FindIsFirst | src/gateway/formatter.rs:40-43 | The substring search misses nothing: an occurrence at k means one is reported at or before k |
| Text.DecimalRoundTrip | src/gateway/formatter.rs:45 | Rendered token numbers read back as themselves, so tokens are distinct |
| Formatter.ReplaceBoldMarkers | src/gateway/formatter.rs:111-131 | The loop computes the pairwise rewriting of delimiters, leaving an unmatched one |
| Formatter.ReplaceMdLinks | src/gateway/formatter.rs:144-169 | The loop computes the link rewriting for any way of showing a link; what that makes of a text is stated by the `Rewriting` rows |
| Formatter.EscapeTelegramSpecial | src/gateway/formatter.rs:172-183 | The loop puts a backslash before each special character and changes nothing else |
| Formatter.Substitute | src/gateway/formatter.rs:36-56 | The splitting loop leaves the text with one numbered token per closed fence, and the fences in order; an unclosed fence passes through |
| Formatter.Restore | src/gateway/formatter.rs:60-65 | The restoring loop replaces the tokens one number at a time |
| Formatter.ProtectCodeBlocks | src/gateway/formatter.rs:35-66 | Split, rewrite, restore |
| CodeBlocks.TokensAreDistinct | src/gateway/formatter.rs:45 | A token is not a prefix of text that starts with a different token |
| CodeBlocks.CutAligned | src/gateway/formatter.rs:114-117 | A search for a delimiter foreign to tokens finds the same place whether blocks are tokens or opaque symbols |
| CodeBlocks.BoldCommutes | src/gateway/formatter.rs:111-131 | Bold rewriting of the tokenised text is bold rewriting around opaque blocks |
| CodeBlocks.LinksCommute | src/gateway/formatter.rs:144-169 | Link rewriting of the tokenised text is link rewriting around opaque blocks |
| CodeBlocks.EscapeCommutes | src/gateway/formatter.rs:172-183 | Escaping the tokenised text is escaping around opaque blocks |
| CodeBlocks.BoldClean | src/gateway/formatter.rs:111-131 | Bold rewriting cannot make text that reads as a token |
| CodeBlocks.LinksClean | src/gateway/formatter.rs:133-136 | Slack links cannot make text that reads as a token |
| CodeBlocks.EscapeClean | src/gateway/formatter.rs:172-183 | Escaping cannot make text that reads as a token |
| BlockPreservation.LinksToks | src/gateway/formatter.rs:144-169 | A link may swap blocks between its halves and loses or doubles none |
| BlockPreservation.RestoreOne | src/gateway/formatter.rs:60-64 | One replacement turns every occurrence of one token into its block and changes nothing else, when nothing else reads as that token |
| BlockPreservation.NameAligned | src/gateway/formatter.rs:60-64 | The end of a token and what follows read as another token exactly when the text between is its name up to a later token |
| BlockPreservation.StuckStays | src/gateway/formatter.rs:60-64 | A token torn by a misreading leaves a NUL that no later replacement removes |
| BlockPreservation.ProtectedIsItemwise | src/gateway/formatter.rs:34-66 | A rewrite that treats tokens as symbols acts on the text around the blocks only |
| BlockPreservation.IdentityRewriteReturnsInput | src/gateway/formatter.rs:35-66 | On text free of NUL the identity rewrite returns its input if and only if no two neighbouring fences have between them nothing but the name of an earlier token; so on all text free of the token word |
| BlockPreservation.NamedTokenIsMisread | src/gateway/formatter.rs:35-66 | A text of three fences with the name of the first token before the third comes back damaged |
| BlockPreservation.TelegramIsItemwise | src/gateway/formatter.rs:77-84 | Telegram output is bold and escape applied around opaque blocks |
| BlockPreservation.TelegramKeepsEveryBlock | src/gateway/formatter.rs:77-84 | Telegram output holds every fenced block byte for byte, once, in order |
| BlockPreservation.SlackIsItemwise | src/gateway/formatter.rs:68-75 | Slack output is bold and links applied around opaque blocks |
| BlockPreservation.SlackKeepsEveryBlock | src/gateway/formatter.rs:68-75 | Slack output holds every fenced block byte for byte, once; links may reorder blocks |
| Rewriting.LinkIsShown | src/gateway/formatter.rs:144-169 | `[text](url)` becomes what the link is shown as, with exactly the text between the brackets and the address between the parentheses; what stands before is kept and the rewriting goes on behind |
| Rewriting.LinkReadsExactly | src/gateway/formatter.rs:147-156 | A bracket is read as a link if and only if the next closing bracket is followed at once by an opening parenthesis and that by a closing one somewhere |
| Rewriting.OtherBracketStays | src/gateway/formatter.rs:164-167 | A bracket that begins no link stays, and the text behind it is rewritten |
| Rewriting.NoLinkNoChange | src/gateway/formatter.rs:144-169 | Text in which no bracket begins a link comes back unchanged |
| Rewriting.PairIsReplaced | src/gateway/formatter.rs:111-131 | A pair of bold markers is replaced where it stands, around the same text |
| Rewriting.LoneMarkerStays | src/gateway/formatter.rs:122-127 | A marker without a partner stays |
| Rewriting.FenceIsBlock | src/gateway/formatter.rs:40-55 | A closed fence is one block with its backquotes and one numbered token; the text around it is neither |
| Rewriting.UnclosedIsRewritten | src/gateway/formatter.rs:49-54 | Text with a fence that is never closed is rewritten as it is |
| Rewriting.SlackShowsLink | src/gateway/formatter.rs:68-75 | On Slack, in text free of fences and markers, a link comes out as its address, a bar and its text in angle brackets, and the rest is formatted as if alone |
| Rewriting.SlackShowsBold | src/gateway/formatter.rs:68-75 | On Slack, in text free of fences, a pair of markers comes out as a pair of single stars |
| Rewriting.SlackKeepsOrdinaryText | src/gateway/formatter.rs:68-75 | Text without fence, link or marker is delivered as it is |
| Rewriting.TelegramShowsBold | src/gateway/formatter.rs:77-84 | On Telegram a pair of markers comes out as a pair of single stars, with everything around escaped |
| Rewriting.SlackShieldsBlock | src/gateway/formatter.rs:35-75 | Markers and links inside a fenced block are delivered as they were written |
| Rewriting.TelegramShieldsBlock | src/gateway/formatter.rs:35-84 | On Telegram a block is delivered as it was written, and the text around it escaped |
| Markdown.EscapeHasLeftInverse | src/gateway/formatter.rs:172-183 | Dropping each backslash directly before a special character undoes the escape, on any text |
| Markdown.EverySpecialIsGuarded | src/gateway/formatter.rs:172-183 | Every special character of the output has a backslash before it |
| Markdown.BoldKeepsNonStars | src/gateway/formatter.rs:111-131 | Bold rewriting keeps the sequence of characters that are not stars |
| Markdown.BoldLength | src/gateway/formatter.rs:111-131 | It shortens the text by exactly two for each matched pair |
| Utf8.BoundaryWithinThree | src/gateway/chunker.rs:79-81 | From any offset of a well-formed text a character boundary is at most three bytes back |
| Utf8.EncodedIsRead | src/gateway/chunker.rs:89 | A code point encoded by section 3 of RFC 3629 is read back as a character of that length and code point |
| Utf8.ReadIsEncoded | src/gateway/chunker.rs:89 | What is read as a character is the encoding of its code point |
| Utf8.LastSpaceIsSpace | src/gateway/chunker.rs:89 | The backward search for white space finds white space |
| Utf8.LastSpaceIsLast | src/gateway/chunker.rs:89 | No white-space character starts after the one it finds |
| Utf8.TrimSplits | src/gateway/chunker.rs:96 | Trimming takes away white space only, and all of it |
| Chunker.WalkBack | src/gateway/chunker.rs:82-85 | The inner loop finds the largest boundary at or below the limit |
| Chunker.WalkBackIsShort | src/gateway/chunker.rs:79-85 | The walk takes at most three steps and, with a limit of four, stays above zero |
| Chunker.CutPrefersWhitespace | src/gateway/chunker.rs:87-93 | A cut is before the last white space that starts in the window after its first character, or at the largest boundary within the limit when there is none |
| Chunker.CutIsBeforeLastSpace | src/gateway/chunker.rs:89-93 | With white space in the window after its first character the cut is before white space, and none starts after it in the window |
| Chunker.CutIsAtLimit | src/gateway/chunker.rs:89-93 | With no such white space the cut is at the largest boundary within the limit |
| Chunker.EveryCutIsLatest | src/gateway/chunker.rs:73-97 | Every chunk is the rest of the text, or the rest up to its last white space within the limit, or up to the limit when it has none |
| Chunker.LoopEndsIffCharactersFit | src/gateway/chunker.rs:63-97 | The loop ends exactly when every character that is not white space has at most limit bytes |
| Chunker.WideCharacterNeverEnds | src/gateway/chunker.rs:79-85 | A two-byte character and a limit of one never end |
| Chunker.FourBytesFitAnything | src/gateway/chunker.rs:79-81 | A limit of four or more always qualifies |
| Chunker.ChunksAreDeliverable | src/gateway/chunker.rs:73-97 | Every chunk is well-formed and within the limit, and non-empty for a limit of at least four |
| Chunker.OnlySpaceIsLost | src/gateway/chunker.rs:73-97 | The text is chunk, white space, chunk and so on in order |
| Chunker.LaterChunksStartWithText | src/gateway/chunker.rs:96 | No chunk after the first starts with white space |
| Chunker.Chunk | src/gateway/chunker.rs:57-100 | The loop computes the chunks of the rows above, and short or unlimited text is one chunk |
| RateLimiter.Limiter.CheckAndRecord | src/gateway/rate_limiter.rs:27-53 | The verdict and the new table entry of one call, from the old entry and up to three clock readings; other users keep their entries |
| RateLimiter.WindowHolds | src/gateway/rate_limiter.rs:34-52 | The stored count is the number of calls allowed since the window opened, and never above the quota |
| RateLimiter.BurstIsBounded | src/gateway/rate_limiter.rs:27-53 | In any half-open interval of one window length a user has at most 2 * max(1, quota) allowed calls, one fewer when a call reads the clock once |
| RateLimiter.BoundIsReached | src/gateway/rate_limiter.rs:27-53 | For every quota and every window of two clock units or more the bound is attained: two quotas, one fewer when each call reads the clock once |
| RateLimiter.SlidesExactly | src/gateway/rate_limiter.rs:1-4 | The limiter keeps the configured quota in any interval of a window length if and only if the window is empty, or the quota is at least one and the window is one clock unit, or the quota is one and each call reads the clock once |
| RateLimiter.NoQuotaStillAdmits | src/gateway/rate_limiter.rs:42-45 | With a quota of none the first call after a window is allowed, and at most one in any window length |
| RateLimiter.RefusalIsEarned | src/gateway/rate_limiter.rs:46-48 | A refused call has at least the quota of allowed calls by the same user in the window before it |
| RateLimiter.RefusedExactly | src/gateway/rate_limiter.rs:34-52 | A call is refused if and only if its stored window is still open and has allowed the quota; a call a window after the stored start is allowed |
| RateLimiter.StayingAwayHelps | src/gateway/rate_limiter.rs:42-45 | A user none of whose calls fell in the last window is let in |
| RateLimiter.OthersDoNotMatter | src/gateway/rate_limiter.rs:34-39 | Calls by other users never affect a user entry |
| RateLimiter.VerdictIsLocal | src/gateway/rate_limiter.rs:34-52 | A verdict is the one reached when only that user calls |
| Deduplicator.Window.Seen | src/gateway/deduplicator.rs:27-37 | Seen exactly when the key is in the window; a new key enters and the oldest leaves at capacity |
| Deduplicator.KeysIdentifyMessages | src/gateway/deduplicator.rs:28 | Keys of two users identify their messages if and only if neither id followed by a colon begins the other |
| Deduplicator.ColonsCollide | src/gateway/deduplicator.rs:28 | With a colon in a user id two users share a key |
| Deduplicator.WindowIsRecentKeys | src/gateway/deduplicator.rs:27-37 | The window is the last accepted keys, as many as fit, without repeats |
| Deduplicator.RepeatsAreFarApart | src/gateway/deduplicator.rs:27-37 | Between two acceptances of one key lie at least capacity other acceptances |
| Deduplicator.ZeroCapacityNeverForgets | src/gateway/deduplicator.rs:32-35 | With capacity zero nothing is ever evicted |
| Replies.ApproveExactly | src/quarry/approval.rs:91-116 | A text approves exactly when it is one approve word, in any case, with blanks around it and marks directly after it |
| Replies.CancelExactly | src/quarry/approval.rs:91-116 | The same for cancel words |
| Replies.SpellsExactly | src/quarry/approval.rs:99-102 | A text lowers to a word if and only if each of its letters is that letter, its capital, or the Kelvin sign for a k |
| Replies.OnlyCapitalsLower | src/quarry/approval.rs:99-102 | Nothing but a capital letter or the Kelvin sign changes when it is lowered |
| Approval.ApprovalRegistry.HasPending | src/quarry/approval.rs:342-347 | True exactly when the sender has an entry on the channel |
| Approval.ApprovalRegistry.Begin | src/quarry/approval.rs:383-437 | Replaces the entry of the sender on the channel; a superseded one is settled and logged |
| Approval.ApprovalRegistry.SubmitReply | src/quarry/approval.rs:443-488 | The answer and new state for every text: nothing pending, expired, unclear, or settled with the handle used up |
| Approval.ApprovalRegistry.ClearOwnEntry | src/quarry/approval.rs:577-585 | Removes the entry only if it is still the own one |
| Approval.ApprovalRegistry.LogDecision | src/quarry/approval.rs:587-597 | Logs every decision but a superseding |
| ApprovalSafety.BeginKeeps | src/quarry/approval.rs:391-425 | Beginning keeps the invariant of every ticket |
| ApprovalSafety.ReplyKeeps | src/quarry/approval.rs:443-488 | A reply keeps the invariant of every ticket |
| ApprovalSafety.WaiterKeeps | src/quarry/approval.rs:566-599 | Each separate step of the waiter keeps the invariant of every ticket |
| ApprovalRuns.UnresolvedIsLiveOrDecided | src/quarry/approval.rs:394-425 | In every reachable state an unresolved ticket is the live entry with an unused handle, or holds its decision |
| ApprovalRuns.DecisionNeedsAReply | src/quarry/approval.rs:443-488 | A decision to approve or cancel comes from an earlier lone word by the same user on the same channel, before the deadline, while the ticket was registered |
| ApprovalRuns.ApprovedNeedsAnApproval | src/quarry/approval.rs:563-600 | wait returns Approved only after such a reply, in every interleaving |
| ApprovalRuns.ExpiryIsNotEarly | src/quarry/approval.rs:566-575 | Expired is decided only once the deadline has passed |
| ApprovalRuns.TimerIsFromWait | src/quarry/approval.rs:569 | The timer of a waiter runs out one timeout after its wait began |
| ApprovalRuns.WaitEndsExactly | src/quarry/approval.rs:569-575 | A waiter comes to a decision if and only if one was sent or its timer has run out: the one sent when there is one, expiry otherwise |
| ApprovalRuns.EveryWaitReturns | src/quarry/approval.rs:566-599 | No wait hangs: time and three steps of its own bring it to return what was sent, at once, or Expired as soon as its timer has run out |
| ApprovalRuns.DeadlineIsFromBegin | src/quarry/approval.rs:414-424 | A request's deadline, and that of its entry while registered, is the time of its begin plus its timeout |
| ApprovalRuns.AnswersExactly | src/quarry/approval.rs:443-488 | Nothing is pending if and only if no request of the sender on that channel is registered and in time; to such a request a lone word of either vocabulary is that decision, and anything else a question |
| ApprovalRuns.AuditNamesTheRequest | src/quarry/approval.rs:587-597 | Every audit record names the sender, the channel and the caps of its request |
| ApprovalRuns.FirstDecisionStands | src/quarry/approval.rs:470-486 | The first decision is never changed and is the one returned |
| ApprovalRuns.SettlingDecidesExactly | src/quarry/approval.rs:469-486 | Every recognised reply in time to a registered entry is reported as settling it; it decides the request if and only if the ticket is still held open and the entry not yet answered, and otherwise changes no decision |
| ApprovalRuns.ReplyDecidesExactly | src/quarry/approval.rs:469-486 | Over runs: such a reply is the decision from then on under the same condition |
| ApprovalRuns.SettledRepliesCanBeIgnored | src/quarry/approval.rs:477-485 | A second reply before cleanup, and a reply to a request nobody waits for, are reported as settling and change nothing |
| ApprovalRuns.CleanupSparesOthers | src/quarry/approval.rs:577-585 | A cleanup never removes the entry of another request |
| ApprovalRuns.AuditAgrees | src/quarry/approval.rs:587-598 | The last audit record of a finished request is the decision returned, and at most one is not Superseded |
| ApprovalRuns.AbandonedEntryStays | src/quarry/approval.rs:538-545 | The entry of a dropped ticket stays registered if and only if its sender has not begun again |
| Gate.GStepKeeps | src/quarry/gate.rs:109-166 | Every step of a gated run keeps: started only after delivery and approval, at most once |
| Gate.StartNeedsApproval | src/quarry/gate.rs:109-166 | The supervisor is started only after the approving reply of the own user, with the plan delivered, and at most once |
| Gate.EveryGateCanEnd | src/quarry/gate.rs:133-166 | No open gate hangs: at most seven steps bring it to an end, which starts the run when an approval was sent and reports any other decision, silence as expiry |
| Gate.NotRunStartsNothing | src/quarry/gate.rs:144-160 | A gate that reports that nothing was run started nothing, and a reported cancel was a reply |
| Gate.CancelStopsTheRun | src/quarry/gate.rs:144-166 | Once a cancel is accepted the run is never started |
| Gate.OneRunForOneReply | src/quarry/gate.rs:109-166 | One reply approves at most one run |
| Gate.StartsAtMostApprovals | src/quarry/gate.rs:109-166 | There are never more starts than approving replies |
| Gate.UndeliveredPlanLeavesEntry | src/quarry/gate.rs:133-142 | The entry of a plan that could not be sent stays registered if and only if its sender has not begun another run |
| Gate.UndeliveredEntryOutlivesDeadline | src/quarry/gate.rs:133-142 | Such an entry is still registered after its deadline |
| Gateway.MessageHandler.HandleMessage | src/gateway/mod.rs:1256-1370 | One uninterrupted message: its one ending, and exactly which of registry, window, limiter and agent change |
| Gateway.StepsAgree | src/gateway/mod.rs:1256-1370 | The steps of the concurrent pipeline, run without interruption, end a message in the same way |
| Pipeline.LeavingIsForGood | src/gateway/mod.rs:1295-1337 | A message that left the path of a plan reply never returns to it |
| Pipeline.PStepKeeps | src/gateway/mod.rs:1339-1370 | Every step keeps: one limiter check per message past the limiter, and the agent has each processed message once |
| PipelineRuns.EndingIsFinal | src/gateway/mod.rs:1256-1370 | A message has one ending, never revised |
| PipelineRuns.EveryMessageCanEnd | src/gateway/mod.rs:1256-1370 | At any point of any run an arrived message can be brought to an ending by at most five steps of its own |
| PipelineRuns.AgentSeesProcessedOnce | src/gateway/mod.rs:1413-1419 | The agent sees a message exactly when it ends as processed, once |
| PipelineRuns.GateRepliesTouchNothingElse | src/gateway/mod.rs:1287-1337 | A message that settles or clarifies a gate leaves window and limiter unchanged at each of its steps and never reaches the agent |
| PipelineRuns.ExemptExactly | src/gateway/mod.rs:1263-1294 | A message that gets as far as its offer ends as a plan reply, for good, if and only if its check found an approval of its sender registered and its offer finds one in time; otherwise it leaves that path for good |
| PipelineRuns.DroppedExactly | src/gateway/mod.rs:1263-1276 | A message is dropped as a duplicate if and only if its check found no approval of its sender registered and its key is among the last accepted ones, as many as the window holds |
| PipelineRuns.DeniedExactly | src/gateway/mod.rs:1340-1370 | Of the messages the limiter was asked about, exactly those are denied whose check it does not allow |
| PipelineRuns.InboundReplyDecidesExactly | src/gateway/mod.rs:1287-1316 | An inbound recognised reply in time decides the plan if and only if its gate still waits and nothing settled the entry before |
| PipelineRuns.AgentLoadIsBounded | src/gateway/mod.rs:1340-1370 | In any interval of one window length at most two quotas of one user messages, counted at the limiter check, reach the agent |
| PipelineRuns.StartNeedsAMessage | src/gateway/mod.rs:1295-1316 | No run starts without an inbound lone approve word from its own user on its own channel, in time |
| PipelineRuns.LeftOverDisablesDedup | src/gateway/mod.rs:1265-1276 | While an abandoned approval lingers, no message of its sender on that channel is dropped as a duplicate |
| PipelineRuns.LeftOverExemptsUntilDeadline | src/gateway/mod.rs:1285-1294 | While an abandoned approval lingers, a message of its sender that is offered ends as a plan reply if and only if it is offered before the deadline |
| PipelineRuns.LeftOverExemptsMessages | src/gateway/mod.rs:1285-1294 | Messages of that sender before the deadline leave window and limiter unchanged and never reach the agent |
| PipelineRuns.SettledEntryStillExempts | src/gateway/mod.rs:1285-1294 | With nothing abandoned: after a plan was approved and before its waiter has cleaned up, any text of the sender ends as a reply, past window and limiter |
| PipelineRuns.StartsAtMostApprovingMessages | src/gateway/mod.rs:1295-1316 | There are never more starts than inbound messages that approve a plan |
| Scope.InsertThenLookup | src/quarry/policy.rs:154-162 | Insertion into the sorted tags behaves as a map |
| Scope.Mint | src/quarry/policy.rs:168-190 | Minting succeeds exactly on a non-empty set of clean tags and keeps them all; otherwise the first fault is reported |
| Scope.TagIsMintedExactly | src/quarry/policy.rs:100-106 | A tag is refused if and only if its key is empty or a separator or control character stands in it |
| Scope.RefusedForFirstFault | src/quarry/policy.rs:168-190 | A refused set is refused for being empty, or for its first tag that is not clean, with an empty key or the first forbidden character of its key and then its value |
| Scope.Key | src/quarry/policy.rs:199-208 | The loop computes the canonical key |
| Scope.ParseInvertsKey | src/quarry/policy.rs:192-208 | A parser recovers the tags from the key |
| Scope.KeyIsInjective | src/quarry/policy.rs:192-208 | Distinct minted scopes have distinct keys |
| Scope.UncheckedTagsCollide | src/quarry/policy.rs:29-49 | Without the check one tag forges the key of any two, and minting refuses that tag |
| Scope.MintScope | src/quarry/policy.rs:587-606 | The minted scope holds the verified user and channel whatever the operator tags |
| Scope.OperatorTagsAreKept | src/quarry/policy.rs:597-604 | Every tag of the operator but a reserved one is in the sender's scope, of several with one key the last, and beside them and the sender nothing else is |
| Scope.EqualKeysMeanSameSender | src/quarry/policy.rs:582-606 | Equal keys mean the same user, channel and tags |
| Scope.NarrowingBothWaysIsEqualKeys | src/quarry/policy.rs:228-237 | Two minted scopes narrow to each other exactly when their keys are equal |
| Policy.ResolveSpend | src/quarry/policy.rs:665-721 | The branches for spend, in the order of the source, settle it as the decision function says |
| Policy.ResolveLatency | src/quarry/policy.rs:723-769 | The branches for latency likewise |
| Policy.Resolve | src/quarry/policy.rs:629-827 | The whole decision: entry, spend, latency, deadline, scope, at least one cap |
| Policy.MostSpecificDecides | src/quarry/policy.rs:572-580 | A sender's entry decides whatever the channel and the default say, a channel's whatever the default says |
| Policy.RefusedExactly | src/quarry/policy.rs:629-827 | A request is refused exactly for the first reason that applies: no entry, a forbidden wish for no limit, a spend and then a latency above the maximum of an entry that does not reduce, a bad scope, nothing granted |
| Policy.EveryGrantIsAccountedFor | src/quarry/policy.rs:663-806 | Each granted cap is what was asked, permitted and within the maximum, or has exactly one record with the true amounts; the only silent change is dropping a forbidden cap without a default; a grant has a cap |
| Policy.SpendStaysWithinMaximum | src/quarry/policy.rs:680-721 | A granted spend is within a binding maximum if and only if no permitted request for no limit and no default outside it was taken |
| Policy.LatencyStaysWithinMaximum | src/quarry/policy.rs:723-769 | A granted latency, in milliseconds, is within the maximum in seconds if and only if no default above it was taken |
| Policy.MaximumsCanBePassed | src/quarry/policy.rs:680-721 | Both ways past a maximum happen, and the default could then not be asked for |
| Policy.GrantIsStable | src/quarry/policy.rs:663-806 | Asking again for what was granted grants the same if and only if every default taken for a permitted cap would be granted on request |
| Policy.NoLimitTakesWordsOrDefault | src/quarry/policy.rs:665-721 | A message is granted spending without limit if and only if it says so in words and the entry allows it, or an unlimited default is taken |
| Policy.GrantNeverExceedsWhatWasWritten | src/quarry/policy.rs:680-721 | Where spend is permitted, a limited spend named in a message is granted within the one amount written there |
| Policy.EqualScopeKeysMeanSameSender | src/quarry/policy.rs:587-606 | Grants with equal scope keys went to the same user and channel under any configuration |
| SpendScanner.ReadNumberAt | src/quarry/caps.rs:671-701 | The loop reads the longest number with at most one dot that a digit follows; its value is stated by the `Numbers` rows |
| SpendScanner.ReadableExactly | src/quarry/caps.rs:671-701 | A number is read exactly at a digit or at a dot before a digit |
| Numbers.WholeIsRead | src/quarry/caps.rs:671-701 | Digits followed by neither a digit nor a fraction are read as the whole number they write |
| Numbers.FractionIsRead | src/quarry/caps.rs:671-701 | Digits, a dot and digits are read as the number that, times ten to the number of places, is what all the digits write |
| Numbers.NumberIsSpelled | src/quarry/caps.rs:671-701 | Nothing else is read as a number |
| Amounts.WordInText | src/quarry/caps.rs:710-726 | A word stands in a text unless a letter comes directly before or a letter or digit directly after it |
| Amounts.MinusExactly | src/quarry/caps.rs:641-647 | A minus before an amount counts if and only if only spaces lie between |
| Amounts.DollarIsRead | src/quarry/caps.rs:586-598 | A dollar sign, spaces and a number are read as that amount, with the sign written before it |
| Amounts.PrefixIsRead | src/quarry/caps.rs:600-608 | So are usd, spaces and a number |
| Amounts.UnitIsRead | src/quarry/caps.rs:610-631 | So are a number outside any larger token, spaces and a unit |
| Amounts.JoinedIsNoAmount | src/quarry/caps.rs:656-664 | A number directly behind a letter, a digit, a minus or a dot is no amount |
| Amounts.AmountIsWritten | src/quarry/caps.rs:578-639 | Every amount found has the digits and the sign that are written there in one of these three ways |
| Amounts.NothingIsOverlooked | src/quarry/caps.rs:578-639 | An amount that can be read is reported, unless what was read before it reaches past its start |
| SpendScanner.SkipSpacesFrom | src/quarry/caps.rs:649-654 | The loop skips the spaces |
| SpendScanner.MinusBefore | src/quarry/caps.rs:641-647 | The loop sees a minus through spaces |
| SpendScanner.ScanOne | src/quarry/caps.rs:583-636 | One turn of the scanning loop |
| SpendScanner.FindSpendAmounts | src/quarry/caps.rs:578-639 | The scanning loop terminates with the amounts of the text |
| SpendScanner.SpansAreDisjoint | src/quarry/caps.rs:578-639 | Amounts lie in the text, disjoint, from left to right |
| SpendScanner.DollarsAreReportedOnce | src/quarry/caps.rs:586-598 | The dollar amounts reported are exactly the dollar signs a number follows, each once, in order |
| SpendScanner.MinusIsNeverLost | src/quarry/caps.rs:610-631 | A dollar or unit amount with a minus before it is not positive, and only such an amount is negative |
| TimeZone.InstantsAreExact | src/quarry/caps.rs:1020 | The instants of a wall time are exactly those that show it |
| TimeZone.ResolveLocal | src/quarry/caps.rs:1008-1039 | The gap walk resolves a wall time to its single, earliest or next instant |
| TimeZone.DoubledTimeTakesTheEarliest | src/quarry/caps.rs:1005-1007 | A wall time shown more than once resolves to its first showing, in any zone |
| TimeZone.ResolvedIsNotEarlier | src/quarry/caps.rs:1002-1007 | A wall time resolves to an instant that shows it, or shows up to three hours later when it is skipped |
| TimeZone.GapResolvesToItsEnd | src/quarry/caps.rs:1023-1036 | A wall time whole minutes before the end of its gap resolves to the transition instant |
| TimeZone.SkippedExactly | src/quarry/caps.rs:1020-1023 | In a zone of forward jumps a wall time is shown by no instant if and only if a change of the table skips it |
| TimeZone.ResolvesExactly | src/quarry/caps.rs:1023-1039 | A wall time resolves if and only if it or one of the 180 minutes after it is not skipped |
| TimeZone.ResolvedShows | src/quarry/caps.rs:1023-1036 | With changes a minute apart every wall time resolves, to an instant that shows it or the first of its minutes past the gap |
| TimeZone.AheadExactly | src/quarry/caps.rs:1008-1039 | A wall time resolves to the future if and only if the local clock has not reached what its instant shows |
| TimeZone.MinuteAheadExactly | src/quarry/caps.rs:1008-1039 | In a zone of whole minutes a minute resolves to the future if and only if the local clock has not reached it |
| Deadline.TriggerIsFirstFree | src/quarry/caps.rs:910-918 | The inner loop finds the first occurrence of a trigger that no letter or digit precedes, for a trigger that cannot overlap itself |
| Deadline.DeadlineIsFirstTrigger | src/quarry/caps.rs:907-920 | The deadline starts after the first such occurrence of the earliest trigger in the list that has one |
| Deadline.TriggersDoNotEcho | src/quarry/caps.rs:909 | No deadline trigger can overlap itself |
| Deadline.HeardExactly | src/quarry/caps.rs:420-422 | A deadline is heard if and only if the winning trigger, the first free one of the list, is followed by one |
| CapsExamples.DeadlineBehindIsDropped | src/quarry/caps.rs:420-422 | By hand, $5, due sunday: accepted with the spend cap alone, although due sunday stands free and names a time |
| Deadline.NamedIsPlaced | src/quarry/caps.rs:856-901 | Every named deadline is a valid time on the day its form calls for, a weekday one to seven days ahead; which hour and minute is stated by the `DeadlineWords` rows |
| DeadlineWords.TimeIsMeant | src/quarry/caps.rs:936-945 | The longest part of the day that occurs behind a word for a day sets the time, of equally long ones the first listed, and without any it is 23:59 |
| DeadlineWords.TomorrowMeans | src/quarry/caps.rs:856-861 | Tomorrow means the next day at the time named behind it |
| DeadlineWords.TodayMeans | src/quarry/caps.rs:862-865 | Today means this day at the time named behind it |
| DeadlineWords.WeekdayMeans | src/quarry/caps.rs:867-884 | A weekday means the first such day after this one, at the time named behind it |
| DeadlineWords.WeekdaysFollow | src/quarry/caps.rs:870 | The epoch began on a thursday and the weekdays follow one another |
| DeadlineWords.PartMeans | src/quarry/caps.rs:886-897 | A part of the day means its own hour and minute, the next time they come |
| DeadlineWords.ClockMeans | src/quarry/caps.rs:947-1000 | With or without minutes, an hour up to twelve before am is that hour modulo twelve, and before pm that plus twelve; without either word an hour with minutes or above twelve is as written; a bare hour below thirteen is asked about in both readings; what no clock shows is no time; and the time is the next one after the minute of the clock |
| DeadlineWords.ByClockMeans | src/quarry/caps.rs:947-1000 | By, any digits, spaces or none and am or pm name that time |
| DeadlineWords.ByDayMeans | src/quarry/caps.rs:851-884 | By and a word for a day name the day and time these words mean |
| DeadlineWords.ClockShows | src/quarry/caps.rs:854 | The local clock shows the minute of the instant |
| Deadline.DeadlinesAreAhead | src/quarry/caps.rs:851-904 | In a zone of forward jumps up to three hours a deadline resolves if and only if its minute or one of the next 180 is not skipped, always when changes lie a minute apart, and then every deadline but today lies strictly after now |
| Deadline.CloseJumpsLoseTheDeadline | src/quarry/caps.rs:1023-1039 | Two jumps a nanosecond apart leave by friday without a time |
| Deadline.TodayIsAheadExactly | src/quarry/caps.rs:862-865 | A today deadline lies ahead if and only if the local clock has not reached the minute it resolves to, its own unless a gap skips it |
| Deadline.WeekdayLandsOnItsDay | src/quarry/caps.rs:867-884 | A weekday deadline names that weekday one to seven days ahead, and lands on it if and only if no change skips both its minute and the last minute of that day, else on the next |
| Deadline.SomeGapsCrossMidnight | src/quarry/caps.rs:867-884 | By friday, said in the week before a late jump on that friday, lands on saturday |
| Caps.LatencyIsFirst | src/quarry/caps.rs:766-782 | The loop reads the duration after the first occurrence of a trigger as a word that has one, for a trigger that cannot overlap itself |
| Caps.LatencyIsByFirst | src/quarry/caps.rs:765-784 | Earlier triggers of the list come first, wherever they stand |
| Caps.LatencyTriggersDoNotEcho | src/quarry/caps.rs:755-762 | No latency trigger can overlap itself |
| Caps.LatencyIsPositiveExactly | src/quarry/caps.rs:806-816 | A latency of a message is read after one of its triggers, and positive if and only if the duration written there is not too short |
| CapsWords.StandingUnit | src/quarry/caps.rs:797-805 | The unit that stands behind a number is the one taken, whatever shorter units it begins with |
| CapsWords.DurationIsWritten | src/quarry/caps.rs:787-817 | Spaces, a filler or none, a number, spaces and a unit are read as the duration of that number of that unit |
| CapsWords.WholeDuration | src/quarry/caps.rs:806-816 | A whole number of a unit lasts that many of it, in milliseconds |
| CapsWords.DurationIsNearest | src/quarry/caps.rs:806-816 | Any other number is rounded to the nearest millisecond, or cut to whole ones when milliseconds are written |
| CapsWords.LimitsAskExactly | src/quarry/caps.rs:1076-1108 | A message is asked about a limit that is not a cap if and only if one of the nouns lies within the forty characters behind a limit phrase, phrases being met from left to right without overlap, or a word for depth occurs |
| CapsExamples.ZeroLatencyIsAccepted | src/quarry/caps.rs:806-810 | Within 0 milliseconds: accepted with a latency cap of zero and no question |
| Caps.ParseCaps | src/quarry/caps.rs:415-486 | The whole parse: caps with disclosures, or questions |
| Caps.Combine | src/quarry/caps.rs:416-485 | What was found becomes caps with disclosures, or all questions at once |
| Caps.EveryParseIsRunnableOrAsks | src/quarry/caps.rs:145-155 | Caps have at least one cap and a spend of no limit or at least one micro-dollar after rounding; a refusal has a question |
| Caps.SpendIsWhatWasWritten | src/quarry/caps.rs:524-571 | A spend cap is the one positive amount of the message, rounded, or an explicit wish for no limit |
| CapsWords.MicroIsNearest | src/quarry/event.rs:79-81 | Micro-dollars are the nearest to the amount, half away from zero, held within 64 bits |
| CapsWords.SpendIsTheDigits | src/quarry/caps.rs:524-571 | A limited spend is, up to six places, exactly the number that stands with a dollar sign, usd or a unit in the message, and beyond that the nearest micro-dollar |
| CapsWords.DollarsAreSpent | src/quarry/caps.rs:524-571 | A dollar amount with nothing else that looks like one, and no phrase about spending, is the spend of the message |
| CapsWords.SpendIsNotDropped | src/quarry/caps.rs:524-571 | Nothing found about spending is dropped without a question: phrases for spending nothing, several amounts and amounts that are not positive ask, and any other single amount is the spend |
| CapsWords.ParsedExactly | src/quarry/caps.rs:415-486 | A message is parsed if and only if nothing in it needs an answer and something in it is a cap, and then its caps are what was read |
| CapsWords.EveryQuestionIsAsked | src/quarry/caps.rs:415-486 | Every question found is asked |
| Caps.WishIsHeard | src/quarry/caps.rs:536-540 | A parse of a message with an unlimited phrase spends without limit |
| Caps.TwoDollarAmountsAsk | src/quarry/caps.rs:542-569 | Two dollar amounts and no wish for no limit always end in a question |
| Caps.DeadlinesAreDisclosed | src/quarry/caps.rs:437-468 | In any zone a deadline comes with both disclosures; in a zone of forward jumps the latency put in its place is positive unless today was named |

## Left out

- Caps.ParseCaps: ASCII text only, because the source slices at raw byte offsets; numbers are exact reals, so binary rounding of decimals is not modelled.
- Replies.ApproveExactly: lower case is exact for every character whose lower case is an ASCII letter; other case folding cannot make a word of the vocabulary.
- BlockPreservation.IdentityRewriteReturnsInput: text holding NUL is excluded, since it can hold whole tokens of its own.
- BlockPreservation.SlackKeepsEveryBlock: stated for text free of NUL and of the token word, since a rewrite can move the name of a token between two tokens.
- BlockPreservation.TelegramKeepsEveryBlock: stated for text free of NUL and of the token word, for the same reason.
- RateLimiter.BurstIsBounded: the configuration is fixed over a run; a reload between calls is not modelled.
- Deduplicator.WindowIsRecentKeys: the hash is taken to be injective on its input.
- Deadline.DeadlinesAreAhead: zones with backward changes are excluded, because a wall time shown twice resolves to its first showing, which may be past.
- The WhatsApp rewrite: it joins text across a removed bracket, which can build a token name.
- `format` and `limit_for`: choosing a platform or a limit by channel prefix.
- `flag_value` of a scope: a comma is not refused, so it has no round trip.
- Calendar dates: days are counted, months and years are not needed by any deadline.
- Texts shown to people: plan rendering, refusal and question messages, time-zone names.
- The supervisor, its child process, receipts and spend reports: one opaque start.
- Channels, HTTP, dashboard, memory, summaries, agents, attachments, audit files and configuration loading.
