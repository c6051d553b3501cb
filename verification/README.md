# Verified models of the gateway's state machines and text transformations

This project models the parts of the repository whose behaviour spans several
functions or several events, and proves what they keep. Every `.dfy` file is
one module; `dafny verify dfyconfig.toml` checks all of them. Code that changes
state step by step is a method or a class with the same fields, proved against
a function or a predicate on values; what the code promises is then proved of
those, over every input or every run.

| part | modules | source |
|---|---|---|
| Configured ACP bindings: a conversation is routed to a binding, and the binding is found again from the session key alone | `SessionKeys`, `Conversations`, `Bindings`, `BindingIds`, `BindingAgreement` | `src/acp/persistent-bindings.*.ts`, `src/acp/conversation-id.ts` and the id helpers they call |
| Document translation: masking code and links, restoring them | `MaskTokens`, `Masking`, `MaskPasses` | `scripts/docs-i18n/masking.go`, `placeholders.go`, `translator.go`, `util.go` |
| The parallel worker pool of document translation | `WorkerPool`, `WorkerOutcomes` | `scripts/docs-i18n/main.go` |
| The tagged document, the front matter of a page and its markers | `TaggedDoc`, `DocumentParts`, `FrontMarkers`, `FrontValues` | `scripts/docs-i18n/doc_mode.go`, `process.go` |
| The browser relay extension: tabs, sessions, snapshot, restart | `RelayTabs`, `RelayWorker`, `RelayRuns`, `RelaySessions` | `assets/chrome-extension/background.js` |
| The ACP session store: capacity, reaping, eviction, run index | `SessionStore`, `SessionRuns`, `SessionAborts`, `SessionHistory` | `src/acp/session.ts` |
| The relay from a spawned run to its parent: buffer, timers, notices, log | `StreamRelay`, `StreamRelayHandle`, `StreamHistory` | `src/agents/acp-spawn-parent-stream.ts` |
| Locations mentioned by a tool call; the text of a prompt | `ToolLocations`, `LocationWalk`, `WalkOrder`, `PromptText` | `src/acp/event-mapper.ts` |
| Slicing UTF-16 without splitting pairs | `Utf16` | `src/utils.ts` |
| The pairing notifier | `PairNotify`, `PairNotifyRuns`, `PairNotifyTold` | `extensions/device-pair/notify.ts` |
| Arming and disarming phone commands | `PhoneArm`, `PhoneArmRuns` | `extensions/phone-control/index.ts` |
| Token usage per job and model | `CronUsage` | `scripts/cron_usage_report.ts` |

`Text` holds the string operations the modelled code calls.

## What turned out not to hold

Where a promise fails, the model keeps the code as it is. Lemmas name inputs on
which it fails and say exactly when it holds. Two conditions are not complete,
on the needles of placeholders and on markers imitated in earlier lines; the
lines below and "Left out" say how far they go.

- Normalizing an account id twice can change it: an id that starts with an
  underscore and is cut at 64 characters right behind a dash loses the dash the
  second time (`SessionKeys.NormalizeTwice`, `LongIdIsUnstable`). A binding for
  such an account is routed, and then not found from its session key
  (`BindingAgreement.UnstableAccountIsLost`); for every other id the two agree
  (`AgreementIffStable`).
- A Feishu id with a space before `:topic:` has the canonical id of the one
  without, but another chat id. Alone, it is recovered with another parent than
  it was routed with (`BindingAgreement.LoneParent`); beside the other, a sender
  in the topic is routed by one binding and recovered with the other
  (`SenderLost`). Exactly the ids that stand for what their canonical id names
  may be configured (`FeishuIdIff`): for a topic, those whose parts have no outer
  spaces (`TopicReliableIff`, `SpacedIdIsUnreliable`); for a sender in a topic, those whose chat has none,
  when the topic is not blank (`SenderReliableIff`). `FeishuQueryIff` says the same of the conversations.
- Masking followed by unmasking is the identity exactly when the validation
  accepts the masked text (`Masking.RoundTrip`): a placeholder that a later link
  swallowed is not restored, because replacement runs oldest first. The text
  must be free of the placeholders' own needles (`Masking.NeedleMatters`); this
  is sufficient, and not necessary: some texts with a needle do come back
  (`Masking.NeedleMayStay`).
- The worker pool can deadlock at start-up when several workers fail
  (`WorkerPool.DeadlockFreeIff` gives the exact condition).
- Reannouncing validates a tab across an await and then drops the session it
  read before. If the tab is replaced in between, the new tab is left attached
  with a session that leads nowhere (`RelayRuns.ReplacedDuringCheck`,
  `RelayTabs.DropKeepsIff`). A restart that cannot read its storage puts the
  session counter back (`RelayRuns.CounterStepIff`).
- Creating a session fails only when all are active, except that a session with
  the empty id is never evicted (`SessionRuns.RefusedIff`, `EmptyIdBlocks`).
  Setting a run over another leaves the old run id in the index
  (`SessionRuns.SetRunKeepsIff`, `ReplacedRunIsFound`).
- A delta that does not fit the stream buffer loses its beginning
  (`StreamRelay.TakeConservesIff`, `LongerDeltaLoses`); a timeout or a disposal loses what is pending
  (`TimeoutLosesPending`).
- A prompt without any text is accepted even under a negative byte limit, and
  that is the only case in which the limit is not on the joined text
  (`PromptText.LimitIff`).
- The pairing notifier's reply promises a one-shot subscriber the next new
  request and then silence; the code sends one message for every new request of
  that poll (`PairNotifyRuns.OnceGetsSeveral`, `MessagesToSubscriber`). A chat
  cannot be switched off if and only if its account id has outer spaces
  (`OffFromNoneIff`, `SpacedAccountStaysOn`; `OffIff` has the one exception there
  is when another chat has the same key), and exactly such commands can list a
  chat twice (`OnKeepsIff`, `PaddedIsDoubled`).
- Arming a phone while it is armed forgets what the first arming changed
  (`PhoneArmRuns.RearmRestoresIff`).
- A value in the front matter is read back if and only if its own end marker is
  not in it and its start marker is not in an earlier line
  (`FrontValues.ReadBackIff`, `TranslationIsRead`, `ImitationIsCut`); only where
  earlier lines hold both of its markers does it depend on what is between them.
- A pairing request with a time stamp between 0 and 1 in the notifier's file is
  forgotten when the file is read a second time
  (`PairNotifyRuns.NormalizedIsCleanIff`).
- A connect that fails after the session was registered leaves the session
  leading to the forgotten tab (`RelayTabs.FailedConnectIff`).
- Front matter that contains the closing tag, or a line that reads like a fence,
  is cut there (`TaggedDoc.DocumentRoundTrip`, `PageRoundTrip`).

## Model

| member | source | states |
|---|---|---|
| `SessionKeys.NormalizedIsPlain` | src/routing/account-id.ts:14-46 | normalized account and agent ids are never empty and hold only lower-case letters, digits, underscores and dashes, so they survive inside a colon-separated key |
| `SessionKeys.NormalizeTwice` | src/routing/account-id.ts:14-46 | normalizing is idempotent on an id exactly when the result is not 64 characters long, starting with an underscore and ending in a dash |
| `SessionKeys.NormalizeThrice` | src/routing/account-id.ts:14-46 | a third normalization changes nothing, whatever the id |
| `SessionKeys.LongIdIsUnstable` | src/routing/account-id.ts:14-24 | a family of long ids whose normal form is normalized again to something else |
| `SessionKeys.NormalizeKeepsValid` | src/routing/account-id.ts:14-46 | an id of up to 64 plain characters that starts with a letter or digit is only lowered, unless it is one of three names of object members; blank ids become the default |
| `SessionKeys.BlockedIsDefault` | src/routing/account-id.ts:14-46 | the three names of object members become the default account, in any case of letters |
| `SessionKeys.NormalizeIgnoresCase` | src/routing/account-id.ts:14-46 | letter case and outer spaces of an account id do not matter |
| `SessionKeys.NormalizeKeepsLetters` | src/routing/account-id.ts:14-46 | no letter, digit or underscore of a short id is lost or moved: other characters become dashes at most |
| `SessionKeys.ChannelName` | src/acp/persistent-bindings.resolve.ts:23-29 | a channel's name is recognized as that channel |
| `SessionKeys.ChannelIff` | src/acp/persistent-bindings.resolve.ts:23-29 | a text is recognized as a channel exactly when it is its name but for letter case and outer spaces |
| `SessionKeys.KeyRoundTrip` | src/acp/persistent-bindings.resolve.ts:58-79 | parsing a built session key gives back its channel and its account, normalized once more, for every agent, account and digest |
| `SessionKeys.KeyInjective` | src/acp/persistent-bindings.types.ts:73-80 | two session keys are equal only if agent, channel, account and digest all are |
| `Conversations.ParseTelegram` | src/acp/conversation-id.ts:41-80 | what is parsed is a signed number for the chat and a number for the topic |
| `Conversations.TelegramIdInjective` | src/acp/conversation-id.ts:29-39 | the canonical id of a topic determines chat and topic |
| `Conversations.TelegramRoundTrip` | src/acp/conversation-id.ts:41-60 | parsing the canonical id of a topic gives the topic back |
| `Conversations.TelegramReads` | src/acp/conversation-id.ts:41-80 | a bare number with a numeric parent is the topic of that parent; an id that names a topic is that topic whatever the parent; nothing else is a topic |
| `Conversations.ParsesTopicSender` | extensions/feishu/src/conversation-id.ts:60-75 | an id of the form chat, topic, sender is taken apart at its last separators, also when the chat contains separators itself |
| `Conversations.ParsesTopic` | extensions/feishu/src/conversation-id.ts:77-90 | the same for chat and topic |
| `Conversations.ParsesSender` | extensions/feishu/src/conversation-id.ts:92-105 | the same for chat and sender, for every chat that does not itself end in a topic |
| `Conversations.FeishuRoundTrip` | extensions/feishu/src/conversation-id.ts:15-125 | an id built from components without colons and outer spaces is parsed back to them and to the scope they imply |
| `Conversations.ParsesBare` | extensions/feishu/src/conversation-id.ts:107-125 | an id without colons is the topic of its parent, or without one a conversation of its own |
| `Conversations.ParentIgnored` | extensions/feishu/src/conversation-id.ts:44-125 | the parent does not matter for an id that names more than a chat |
| `Conversations.UnknownChat` | extensions/feishu/src/conversation-id.ts:15-41 | a blank chat counts as the chat called unknown |
| `Conversations.TopicReparses` | extensions/feishu/src/conversation-id.ts:15-90 | the canonical id of any topic that was parsed names the same topic without outer spaces, and is canonical |
| `Conversations.TopicSenderReparses` | extensions/feishu/src/conversation-id.ts:15-75 | so does that of a sender in a topic, unless the topic is blank |
| `Bindings.ResolveBindingRecord` | src/acp/persistent-bindings.resolve.ts:132-220 | the loop returns the record of the chosen binding: exact account before wildcard, highest priority, the first among equals; and nothing exactly when no binding matches |
| `Bindings.ResolveSpecBySessionKey` | src/acp/persistent-bindings.resolve.ts:222-329 | the loop returns the spec of the first binding with that key that names the account, else of the first wildcard with that key; and nothing exactly when none has the key |
| `Bindings.BindingWins` | src/acp/persistent-bindings.resolve.ts:95-131 | a binding's own mode, directory, backend and label win over the defaults of its agent, which count only where it leaves them blank |
| `Bindings.AccountPriorityIs` | src/acp/persistent-bindings.resolve.ts:42-51 | a pattern is a wildcard exactly when it is a star, and names an account exactly when it normalizes to it, where blank names the default account |
| `BindingIds.RecordIdParts` | src/acp/persistent-bindings.types.ts:82-86 | the id of a binding record is taken apart into its channel, its account and its conversation |
| `BindingIds.DigestInput` | src/acp/persistent-bindings.types.ts:61-71 | what is hashed for a key is taken apart into channel, account and conversation, so different conversations are different inputs |
| `BindingIds.FeishuPeerIff` | src/acp/persistent-bindings.resolve.ts:270-295 | a Feishu peer can be bound exactly when it names a topic or is a bare id of neither of the two kinds for chats |
| `BindingIds.ReadKeyHasSevenParts` | src/acp/persistent-bindings.resolve.ts:58-79 | only a key of seven parts is read as that of a configured binding, not counting empty ones |
| `BindingAgreement.SameTargetSameSelection` | src/acp/persistent-bindings.resolve.ts:132-466 | two configured bindings for one conversation are selected alike, with the same priority, and recovery gives them the parent that routing gave |
| `BindingAgreement.SomeBindingRecovered` | src/acp/persistent-bindings.resolve.ts:222-329 | without any assumption on digests colliding, the key of a routed conversation is found again under the same key |
| `BindingAgreement.HitIsCandidate` | src/acp/persistent-bindings.resolve.ts:132-329 | any other binding that recovery finds under the key was a routing candidate of the same priority |
| `BindingAgreement.Agreement` | src/acp/persistent-bindings.resolve.ts:132-329 | for every Discord channel, Telegram topic and Feishu conversation, and every binding list, when the Feishu ids and the conversation stand for what their canonical ids name, recovering the key of what was routed returns the very spec routing built |
| `BindingAgreement.UnstableAccountIsLost` | src/acp/persistent-bindings.resolve.ts:58-79 | for an account id that normalizes twice to something else, a conversation is routed and recovery of its key finds nothing |
| `BindingAgreement.AgreementIffStable` | src/acp/persistent-bindings.resolve.ts:132-329 | agreement for all configurations and conversations of an account holds if and only if its normalized id does not end in a cut dash |
| `BindingAgreement.FeishuIdIff` | src/acp/persistent-bindings.resolve.ts:222-466 | an id may be configured beside coherent ids, in any list, without a coherent conversation being routed to one spec and recovered as another, if and only if it has the parent of what its canonical id names and, where that is a topic, is that topic; nothing is asked where the canonical id names nothing admissible with that canonical id |
| `BindingAgreement.TopicReliableIff` | src/acp/persistent-bindings.resolve.ts:270-295 | a topic id has this property if and only if chat and topic have no outer spaces |
| `BindingAgreement.SenderReliableIff` | src/acp/persistent-bindings.resolve.ts:270-295 | the id of a sender in a topic has it if and only if the chat has no outer spaces |
| `BindingAgreement.SpacedIdIsUnreliable` | extensions/feishu/src/conversation-id.ts:77-90 | the id "oc :topic:t" does not have it |
| `BindingAgreement.SenderLost` | src/acp/persistent-bindings.resolve.ts:445-463 | an id that stands for a topic but is parsed to other parts, configured before the canonical one: a sender in the topic is routed by one and recovered with the other |
| `BindingAgreement.LoneParent` | src/acp/persistent-bindings.resolve.ts:280-295 | a lone binding with a parent of its own is recovered with that parent, not with the one it was routed with |
| `BindingAgreement.FeishuQueryIff` | src/acp/persistent-bindings.resolve.ts:424-466 | a Feishu conversation is recovered as it was routed, in every list of coherent ids, if and only if it has the parent of what its canonical id names, when that is admissible and canonical |
| `BindingAgreement.ResolveConfiguredRecord` | src/acp/persistent-bindings.resolve.ts:331-470 | written out per channel: for Discord the conversation itself when some binding is a candidate for it, else a different parent, else nothing; for Telegram and Feishu the topic or chat that the id names, where a bare id with a parent is the topic of that parent; nothing for a blank id or another channel |
| `BindingAgreement.RoutedIffCandidate` | src/acp/persistent-bindings.resolve.ts:132-220 | a query is routed to some binding exactly when there is a candidate |
| `BindingAgreement.ResolvedIsRecovered` | src/acp/persistent-bindings.resolve.ts:222-470 | what the entry point resolves, directly or inherited from a Discord parent, is recovered from its key, under the conditions of Agreement |
| `MaskTokens.ContainsIffHole` | scripts/docs-i18n/masking.go:82-89 | in a text whose placeholders are known, searching for a placeholder finds it exactly where it was put |
| `MaskTokens.ReplaceIsSubst` | scripts/docs-i18n/masking.go:73-80 | replacing all occurrences of a placeholder in the text replaces just the places where it was put |
| `MaskTokens.TokenBoundary` | scripts/docs-i18n/masking.go:9-14 | a span that does not cut a placeholder begins and ends between tokens |
| `Masking.MaskStep` | scripts/docs-i18n/masking.go:30-41 | putting a fresh placeholder in the place of a span keeps the bookkeeping: every placeholder is in one place, visible or under one later span, and the text stood for is the same |
| `Masking.UnmaskIsUndo` | scripts/docs-i18n/masking.go:73-80 | replacing placeholders oldest first is undoing the steps oldest first on tokens, and keeps the text stood for |
| `Masking.ValidationSeesHoles` | scripts/docs-i18n/masking.go:82-89 | the placeholders the validation finds are exactly the visible ones |
| `Masking.RoundTrip` | scripts/docs-i18n/masking.go:73-89 | unmasking the masked text yields the original exactly when the validation accepts the masked text |
| `Masking.TranslationIsRestored` | scripts/docs-i18n/translator.go:89-106 | wherever a translation puts the placeholders, and however often, each becomes the span it stands for and every other character stays, also when a later span swallowed a placeholder |
| `Masking.NeedleMatters` | scripts/docs-i18n/placeholders.go:12-30 | a text with half a placeholder in it, for every number: the validation accepts, and another text comes back |
| `Masking.NeedleMayStay` | scripts/docs-i18n/placeholders.go:12-30 | another text with half a placeholder, masked to the same string, does come back: freedom from needles is sufficient only |
| `MaskPasses.PlaceholderState.constructor` | scripts/docs-i18n/placeholders.go:12-18 | the allocator starts at 900000 and knows the placeholders already in the text |
| `MaskPasses.PlaceholderState.Next` | scripts/docs-i18n/placeholders.go:20-30 | the first number from the counter on whose placeholder is unused, which is then used |
| `MaskPasses.HitsAreShaped` | scripts/docs-i18n/placeholders.go:12-18 | every text counted as a placeholder in use has the form of one and occurs in the text |
| `MaskPasses.HitsAreAll` | scripts/docs-i18n/placeholders.go:12-18 | every occurrence of a text of that form is counted, or begins inside one that is |
| `MaskPasses.KeptAll` | scripts/docs-i18n/masking.go:46-71 | matches that do not overlap are all kept, each with the span of its URL |
| `MaskPasses.PatternsDoNotCut` | scripts/docs-i18n/masking.go:9-14 | no match of the code, angle-link or link-URL pattern begins or ends inside a placeholder |
| `MaskPasses.MaskMatches` | scripts/docs-i18n/masking.go:23-44 | exactly the spans not beginning before the end of the last one are replaced, in order, by new placeholders that map to them; the rest of the text stays |
| `MaskPasses.MaskLinkURLs` | scripts/docs-i18n/masking.go:46-71 | the same for the URL groups of links, skipping absent groups |
| `MaskPasses.MaskMarkdown` | scripts/docs-i18n/masking.go:16-21 | the three passes in order, each on the text the one before left, with pairwise distinct placeholders none of which was in use |
| `MaskPasses.UnmaskMarkdown` | scripts/docs-i18n/masking.go:73-80 | the loop replaces the placeholders in order of issue |
| `MaskPasses.ValidatePlaceholders` | scripts/docs-i18n/masking.go:82-89 | accepts exactly when all placeholders occur, else reports the first that does not |
| `MaskPasses.SplitWhitespace` | scripts/docs-i18n/util.go:51-64 | the parts concatenate to the text, the outer ones are white space and the core has none at its ends |
| `MaskPasses.TranslateMasked` | scripts/docs-i18n/translator.go:89-106 | fails when the prompt fails, when the reply is blank or when a placeholder is missing from it, and else returns the reply restored, which is what every reading of it as words and placeholders stands for |
| `MaskPasses.Translate` | scripts/docs-i18n/translator.go:51-66 | a translated text keeps its outer white space; with a translator that echoes, a text free of the marker comes back unchanged or a missing placeholder is reported |
| `WorkerPool.StepDecreases` | scripts/docs-i18n/main.go:159-223 | every step of a worker, the producer or the collector keeps the pool's invariant and lowers a measure |
| `WorkerPool.NeverStuck` | scripts/docs-i18n/main.go:159-223 | in a safe configuration, under every interleaving, some goroutine can move until the collector returns, and every run is bounded |
| `WorkerPool.SafeIsNeeded` | scripts/docs-i18n/main.go:166-172 | outside the safe configurations some interleaving gets stuck |
| `WorkerPool.DeadlockFreeIff` | scripts/docs-i18n/main.go:159-223 | no interleaving deadlocks if and only if: with files, there is a worker and at most one fails to start, or all fail and there are at most files plus one; without files, none fails |
| `WorkerPool.JobsConserved` | scripts/docs-i18n/main.go:175-203 | in every run each job handed out is in exactly one place: with a worker, in the buffer, received or dropped |
| `WorkerPool.SuccessMeansAll` | scripts/docs-i18n/main.go:205-223 | a return without error took exactly one result per file, processed plus skipped is the number of files, and all workers have finished; `WorkerOutcomes.SuccessReports` says which is which |
| `WorkerPool.ErrorMeansFailure` | scripts/docs-i18n/main.go:207-212 | an error is returned only after a failure was received, and when all workers have finished |
| `WorkerOutcomes.ResultsAreCounted` | scripts/docs-i18n/main.go:205-223 | in every run, whatever the collector is doing, processed is the number of results received for written files and skipped that of files already done |
| `WorkerOutcomes.OutcomesConserved` | scripts/docs-i18n/main.go:159-223 | no outcome is lost, changed or made up: those received, buffered and with the workers grow by exactly the outcomes the run's processing ended with |
| `WorkerOutcomes.SuccessReports` | scripts/docs-i18n/main.go:159-223 | a return without error reports as processed and skipped just the numbers of files whose processing ended so, and none failed |
| `WorkerOutcomes.CancelledIffFailed` | scripts/docs-i18n/main.go:166-203 | when the pool returns, the context was cancelled exactly when the processing of some file failed; a worker that fails to start cancels nothing |
| `WorkerOutcomes.CancelStopsWork` | scripts/docs-i18n/main.go:175-203 | after the cancellation just the files already begun are processed, and no further one |
| `TaggedDoc.ParseTaggedDocument` | scripts/docs-i18n/doc_mode.go:86-118 | the index variables find each tag after the one before it, and text outside the sections is an error |
| `TaggedDoc.FrontCutShort` | scripts/docs-i18n/doc_mode.go:86-118 | front matter containing its end tag comes back shorter, if at all |
| `TaggedDoc.DocumentRoundTrip` | scripts/docs-i18n/doc_mode.go:82-124 | a formatted document is parsed back exactly when the front matter lacks its end tag and the body lacks its own |
| `DocumentParts.ParseIsReference` | scripts/docs-i18n/doc_mode.go:82-124 | for every text, parsing is cutting it at the first start of the front matter, then the rest at the first end, then at the first start and the first end of the body; what is left around the sections must be blank, and one line break goes at each end of a section |
| `TaggedDoc.SplitFrontMatter` | scripts/docs-i18n/process.go:91-115 | the loop finds the first closing fence after the first line, and without one the page is all body |
| `TaggedDoc.PageRoundTrip` | scripts/docs-i18n/process.go:91-134 | a written page is split into the front matter and the body it was made of exactly when no line of the front matter trims to a fence |
| `DocumentParts.PageSplits` | scripts/docs-i18n/process.go:91-115 | any first line that begins with three dashes, lines without a fence, a fence and a rest are split into those lines and the rest without its first line break |
| `DocumentParts.PageIsBody` | scripts/docs-i18n/process.go:91-115 | a page that does not begin with three dashes or has no later fence is all body |
| `DocumentParts.FenceIff` | scripts/docs-i18n/process.go:99-104 | a line is a fence exactly when it is three dashes with white space around them |
| `FrontMarkers.BuildFrontmatterTemplate` | scripts/docs-i18n/doc_mode.go:133-167 | the template has a line per string field and per item, strings between their markers, and lists the markers in order |
| `FrontMarkers.MarkDetermined` | scripts/docs-i18n/doc_mode.go:169-171 | two markers at the same place are the same field, index and kind |
| `FrontMarkers.OnlyPlaces` | scripts/docs-i18n/doc_mode.go:133-207 | a marker stands in its own line, and anywhere else in the template only within a value or an item; markers do not overlap |
| `FrontMarkers.ReadBetween` | scripts/docs-i18n/doc_mode.go:195-207 | what is read between the markers of a line never has the end marker in it; it is the value when neither the value has the end nor an earlier line the start, and longer than the value when an earlier line has the start alone |
| `FrontValues.ExtractMarkerValue` | scripts/docs-i18n/doc_mode.go:195-207 | the text between the first start marker and the first end marker behind it, or an error |
| `FrontValues.ExtractIff` | scripts/docs-i18n/doc_mode.go:195-207 | a value is read exactly when it is the text from behind the first start marker to the first end marker behind that |
| `FrontValues.SetReadWhenValue` | scripts/docs-i18n/doc_mode.go:209-219 | the list is padded with empty strings up to the index, whose item is replaced |
| `FrontValues.WithItemIs` | scripts/docs-i18n/doc_mode.go:209-219 | the item at the index becomes the value, items before it stay, and those missing in between are empty strings |
| `FrontValues.ApplyFrontmatterTranslations` | scripts/docs-i18n/doc_mode.go:173-193 | the marked fields are replaced in order by the trimmed values; a missing marker is an error |
| `FrontValues.AppliedIff` | scripts/docs-i18n/doc_mode.go:173-193 | applying fails exactly when some marked value is missing |
| `FrontValues.AppliedReads` | scripts/docs-i18n/doc_mode.go:173-219 | from any text that has the markers, applying gives exactly the strings between them, trimmed, and leaves every other item |
| `FrontValues.ReadBackIff` | scripts/docs-i18n/doc_mode.go:195-207 | a value is read back, trimmed, if and only if its end marker is not in it and its start marker is in no earlier line, unless earlier lines hold both |
| `FrontValues.TranslationIsRead` | scripts/docs-i18n/doc_mode.go:133-219 | a translation that keeps the template around the strings is applied as exactly the translated strings, trimmed, with every other item left, if and only if each string is intact in that sense |
| `FrontValues.ImitationIsCut` | scripts/docs-i18n/doc_mode.go:195-207 | a lone summary is read back if and only if its end marker is not in it |
| `RelayTabs.AttachKeeps` | assets/chrome-extension/background.js:521-528 | attaching keeps every attached tab reachable through its session and session numbers below the counter |
| `RelayTabs.DetachKeeps` | assets/chrome-extension/background.js:553-587 | so does detaching |
| `RelayTabs.ReplaceKeeps` | assets/chrome-extension/background.js:903-918 | so does replacing a tab, whatever the new id was used for |
| `RelayTabs.DropKeepsIff` | assets/chrome-extension/background.js:300-311 | dropping a tab with the session read before validation keeps it if and only if no other tab has that session |
| `RelayTabs.SnapshotRestorable` | assets/chrome-extension/background.js:114-130 | what is persisted is consistent in itself |
| `RelayTabs.RestartRestores` | assets/chrome-extension/background.js:114-164 | a restart from an up-to-date snapshot restores exactly the attached tabs still valid, their sessions and no others, and the counter |
| `RelayTabs.SessionLeadsBack` | assets/chrome-extension/background.js:495-501 | the session of an attached tab resolves to it, but for tab id 0 |
| `RelayRuns.StepKeepsSafe` | assets/chrome-extension/background.js:114-918 | every handler, check, write and restart keeps the invariant, provided no tab is replaced while its session is validated |
| `RelayRuns.TabsAreFound` | assets/chrome-extension/background.js:114-918 | in every such run attached tabs are found through their sessions, no two share one, and live and stored session numbers are below the counter kept with them |
| `RelayRuns.ReplacedDuringCheck` | assets/chrome-extension/background.js:294-311 | a replacement during validation leaves a tab attached whose session leads nowhere |
| `RelayRuns.CounterStepIff` | assets/chrome-extension/background.js:133-138 | a step puts the counter below what is stored exactly when it is a restart that cannot read the storage |
| `RelayRuns.StoredBelowCounter` | assets/chrome-extension/background.js:114-164 | with readable storage every stored session number stays below the counter |
| `RelayRuns.ChildrenStepIff` | assets/chrome-extension/background.js:300-311 | child sessions keep a tracked parent under every step but a failed connect or a reannounce drop of a tab that has some |
| `RelaySessions.EntryIsAfter` | assets/chrome-extension/background.js:114-918 | what each step does to one tab: which steps let go of it, give it a session, leave it connecting, or hand it to a new id |
| `RelaySessions.CounterAfter` | assets/chrome-extension/background.js:133-164 | the session counter goes up by one with each session and is otherwise changed by a restart only |
| `RelaySessions.ReattachAfter` | assets/chrome-extension/background.js:616-901 | a tab waits to be attached again from a navigation on, until a click on it, its removal, the end of the wait, the loss of the relay or a restart |
| `RelaySessions.SessionAfter` | assets/chrome-extension/background.js:114-918 | what each step does to one session: it leads to the tab it was given to, follows it to a new id, and leads nowhere once the tab is let go of, unless connecting failed |
| `RelaySessions.ChildIsFound` | assets/chrome-extension/background.js:743-755 | after a child event on an attached tab the child session is found as a child of it, and after its detach event it is not found |
| `RelaySessions.ParentIsAfter` | assets/chrome-extension/background.js:553-918 | what each step does to one child session: its own last event on a tab with a session decides, it goes with its tab and follows it to a new id |
| `RelaySessions.ParentFollowed` | assets/chrome-extension/background.js:553-918 | over every run the parent of a child is the one those steps leave it with |
| `RelaySessions.ChildStays` | assets/chrome-extension/background.js:495-918 | over every run a child is found with its tab, under each id the tab gets, until an event of its own, the end of the tab's session or a restart |
| `RelaySessions.PendingAfter` | assets/chrome-extension/background.js:294-311 | a validation is pending from its check until it has passed or failed, with the session read at its check |
| `RelaySessions.WritesInOrder` | assets/chrome-extension/background.js:114-130 | over every run until a restart, snapshots are written in the order in which they were taken, and what is stored is the last that landed |
| `RelayWorker.Worker.AttachTab` | assets/chrome-extension/background.js:510-551 | the maps are set even when announcing the session fails afterwards; without a target id nothing changes |
| `RelayWorker.Worker.DetachTab` | assets/chrome-extension/background.js:553-587 | the children, the session and the tab are gone, the rest stays |
| `RelayWorker.Worker.BeginReattach` | assets/chrome-extension/background.js:797-823 | a navigating tab is forgotten with its children and marked for re-attachment, unless it already is |
| `RelayWorker.Worker.OnRemoved` | assets/chrome-extension/background.js:878-901 | a closed tab is forgotten with its children; an untracked one only loses its mark |
| `RelayWorker.Worker.OnReplaced` | assets/chrome-extension/background.js:903-918 | the tab's state, session and children move to the new id |
| `RelayWorker.Worker.ToggleTab` | assets/chrome-extension/background.js:616-636 | cancels a re-attachment, else detaches, else begins to connect |
| `RelayWorker.Worker.ConnectFailed` | assets/chrome-extension/background.js:644-647 | a failed connect forgets the tab only |
| `RelayTabs.FailedConnectIff` | assets/chrome-extension/background.js:510-647 | a failed connect keeps attached tabs reachable and does what a detach does if and only if the tab had neither session nor children; a session registered before the failure goes on leading to the forgotten tab |
| `RelayWorker.Worker.DropTab` | assets/chrome-extension/background.js:300-311 | drops the tab and the captured session, leaving the children |
| `RelayWorker.Worker.OnChildEvent` | assets/chrome-extension/background.js:743-755 | child sessions are recorded and removed for tabs that have a session only; `RelaySessions.ChildIsFound` and `ParentFollowed` say what that means |
| `RelayWorker.Worker.PersistState` | assets/chrome-extension/background.js:114-130 | the snapshot holds exactly the attached tabs and the counter |
| `RelayWorker.Worker.RehydrateState` | assets/chrome-extension/background.js:133-164 | restoring and then dropping invalid tabs, in any order, leaves the valid entries and exactly their sessions |
| `RelayWorker.Worker.GetTabBySessionId` | assets/chrome-extension/background.js:495-501 | main sessions first, then child sessions; tab id 0 counts as none |
| `SessionStore.Victim` | src/acp/session.ts:61-73 | the idle session touched least recently, the earliest among equals; none exactly when no session is idle |
| `SessionStore.Store.constructor` | src/acp/session.ts:24-30 | limits of at least one session and one second; the store is empty |
| `SessionStore.Store.RemoveSession` | src/acp/session.ts:35-46 | the session, its index entry and its controller go |
| `SessionStore.Store.ReapIdleSessions` | src/acp/session.ts:48-59 | exactly the idle sessions past the idle time go, the others keep their order |
| `SessionStore.Store.EvictOldestIdleSession` | src/acp/session.ts:61-78 | the victim goes, unless there is none or its id is empty |
| `SessionStore.Store.CreateSession` | src/acp/session.ts:80-107 | refreshes a known id, else reaps, evicts when full and appends; refused sessions leave the reaping done |
| `SessionStore.Store.GetSession` | src/acp/session.ts:111-117 | returns and touches the session with the id |
| `SessionStore.Store.GetSessionByRunId` | src/acp/session.ts:119-129 | returns and touches the session the index names |
| `SessionStore.Store.SetActiveRun` | src/acp/session.ts:131-140 | sets run, controller and index entry of a known session |
| `SessionStore.Store.ClearActiveRun` | src/acp/session.ts:142-153 | removes them |
| `SessionStore.Store.CancelActiveRun` | src/acp/session.ts:155-168 | a session that holds a controller is cleared and that controller, and no other, is added to the aborted ones; otherwise nothing changes |
| `SessionStore.Store.ClearAllSessionsForTest` | src/acp/session.ts:170-176 | aborts every controller, in order, and forgets everything |
| `SessionStore.SurvivorsAre` | src/acp/session.ts:48-59 | exactly the sessions that are not expired survive reaping, where those without run and controller expire that were not touched since |
| `SessionRuns.NeverOverfull` | src/acp/session.ts:80-107 | in every run the store never holds more than its limit, nor an id twice |
| `SessionRuns.CreateRemovesIdle` | src/acp/session.ts:48-107 | creating aborts nothing and removes only idle sessions: expired ones, and at most the least recently touched when still full |
| `SessionRuns.RefusedIff` | src/acp/session.ts:90-95 | creating fails exactly when the id is new, the store is full, nothing is expired and all are active or the victim has the empty id |
| `SessionRuns.RefusedWhenAllActive` | src/acp/session.ts:90-95 | without an empty id: exactly when the id is new, the store is full and all are active |
| `SessionRuns.EmptyIdBlocks` | src/acp/session.ts:74-76 | one idle session with the empty id blocks a store of size one |
| `SessionRuns.ByRunIff` | src/acp/session.ts:119-129 | with an exact index, looking a run up finds a session exactly when it is running that run, but for the empty session id |
| `SessionRuns.SetRunKeepsIff` | src/acp/session.ts:131-140 | setting a run keeps the index exact if and only if the run id is not empty, the session runs nothing else and no other session runs it |
| `SessionRuns.StepExact` | src/acp/session.ts:35-176 | every operation under that discipline keeps the index exact, across reaping, evicting, clearing and cancelling |
| `SessionRuns.IndexFindsRuns` | src/acp/session.ts:35-176 | so in every such run getSessionByRunId finds a session exactly when it is running the run |
| `SessionRuns.ReplacedRunIsFound` | src/acp/session.ts:131-140 | a run set over another leaves the old one leading to the session |
| `SessionAborts.AbortedOnce` | src/acp/session.ts:35-176 | in every run in which each run brings a controller of its own, no controller is aborted twice and no session keeps an aborted one |
| `SessionHistory.SessionAfter` | src/acp/session.ts:111-168 | what looking up, setting, clearing and cancelling do to each session of the store, the one concerned and the others |
| `SessionHistory.CreatedAfter` | src/acp/session.ts:80-107 | creating with a known id changes key, directory and time only; a new id begins a session without run or controller, unless it is refused |
| `SessionHistory.OthersAfterCreate` | src/acp/session.ts:48-107 | creating lets go of another session exactly when the id is new and the session is expired, or the store is still full and it is the victim, also when it refuses |
| `SessionHistory.RemovedAfter` | src/acp/session.ts:35-46 | removing a session aborts its controller, takes its run out of the index and leaves the others |
| `SessionHistory.CancelAborts` | src/acp/session.ts:155-168 | cancelling a session that holds a controller aborts that controller and clears the session; without one it changes nothing |
| `SessionHistory.StepAborts` | src/acp/session.ts:35-176 | an operation aborts a controller exactly when it cancels the session that holds it, or clears all sessions while one holds it |
| `SessionHistory.AbortedIff` | src/acp/session.ts:35-176 | over every run a controller is aborted exactly when some operation of the run did so, and stays so |
| `SessionHistory.ActiveStays` | src/acp/session.ts:35-176 | over every run a session with a run or a controller keeps both, however many others are created, until an operation on it or clearing all |
| `StreamRelay.SnippetBlankIff` | src/agents/acp-spawn-parent-stream.ts:226-237 | a flushed buffer is sent as a notice exactly when it is not blank |
| `StreamRelay.TakeConservesIff` | src/agents/acp-spawn-parent-stream.ts:304-313 | taking a delta in loses no character exactly when it fits the buffer with what is pending |
| `StreamRelay.StepSettled` | src/agents/acp-spawn-parent-stream.ts:226-367 | after every event less than a snippet is pending, and the flush timer is armed exactly when something is pending, flushing is on and the relay lives |
| `StreamRelay.TextIsConserved` | src/agents/acp-spawn-parent-stream.ts:226-315 | with deltas of at most 3781 characters, flushed buffers followed by the pending text equal all accepted deltas, in every run; `StreamHistory.EveryWordIsKept` says the same of the payloads |
| `StreamRelay.LongerDeltaLoses` | src/agents/acp-spawn-parent-stream.ts:304-313 | 3781 is the largest such bound: behind a pending text of 219 characters any longer delta loses some |
| `StreamRelay.NoticesAreOrderly` | src/agents/acp-spawn-parent-stream.ts:226-367 | in every run stall and resumed alternate, stall first; at most one of done, failed and timed out; progress notices are the flushed buffers, shortened |
| `StreamRelay.EveryFlushIsHeard` | src/agents/acp-spawn-parent-stream.ts:226-237 | with deltas that fit, every flush is exactly one progress notice, in order |
| `StreamRelay.DisposedIsQuiet` | src/agents/acp-spawn-parent-stream.ts:283-367 | after disposal no event or timer changes or sends anything |
| `StreamRelay.EndSendsAll` | src/agents/acp-spawn-parent-stream.ts:323-354 | the end or failure of the run flushes everything accepted |
| `StreamRelay.TimeoutLosesPending` | src/agents/acp-spawn-parent-stream.ts:267-277 | a timeout or disposal loses exactly what is pending |
| `StreamHistory.DeltaIsSaid` | src/agents/acp-spawn-parent-stream.ts:283-303 | an event says its delta when that is a text that is not blank, whatever its cumulative text; the text counts only when the delta is absent; any other event says nothing |
| `StreamHistory.AssistantTakes` | src/agents/acp-spawn-parent-stream.ts:283-319 | on a live relay an event takes in just what it says, ends a stall and resets the silence; it flushes when 220 characters are pending or it holds a blank line |
| `StreamHistory.OverflowKeepsEnd` | src/agents/acp-spawn-parent-stream.ts:304-313 | of what does not fit the buffer the last 4000 characters are sent |
| `StreamHistory.TimerSends` | src/agents/acp-spawn-parent-stream.ts:226-247 | the flush timer flushes all that is pending |
| `StreamHistory.EveryWordIsKept` | src/agents/acp-spawn-parent-stream.ts:226-355 | over every run with payloads of at most 3781 characters, what was flushed and is pending is what the events said up to the first ending, in order |
| `StreamHistory.FinalNoticeTells` | src/agents/acp-spawn-parent-stream.ts:267-355 | over every run there is one final notice, of the first ending: done, failed with its error, or timed out; a disposal has none |
| `StreamHistory.StallIff` | src/agents/acp-spawn-parent-stream.ts:249-264 | over every run the watch sends a stall notice exactly when it is on, none is open, and the configured time has passed since something was last said |
| `StreamHistory.SnippetIsWords` | src/agents/acp-spawn-parent-stream.ts:17-29 | a snippet is the words of the buffer with one space between them, or their first 219 characters and an ellipsis |
| `StreamRelayHandle.Relay.constructor` | src/agents/acp-spawn-parent-stream.ts:204-281 | the initial state, with or without the start notice |
| `StreamRelayHandle.Relay.FlushPending` | src/agents/acp-spawn-parent-stream.ts:226-237 | disarms the timer, empties the buffer and sends its snippet |
| `StreamRelayHandle.Relay.ScheduleFlush` | src/agents/acp-spawn-parent-stream.ts:239-247 | arms the timer unless disposed or off |
| `StreamRelayHandle.Relay.OnAssistant` | src/agents/acp-spawn-parent-stream.ts:283-319 | blank and missing deltas are ignored; others end a stall, are buffered, and flush or schedule; `StreamHistory.DeltaIsSaid` and `AssistantTakes` say which payload counts and what it does |
| `StreamRelayHandle.Relay.OnLifecycle` | src/agents/acp-spawn-parent-stream.ts:321-355 | end and error flush, notify and dispose; other phases do nothing |
| `StreamRelayHandle.Relay.WatchOutput` | src/agents/acp-spawn-parent-stream.ts:249-264 | one stall notice per silence of the configured length |
| `StreamRelayHandle.Relay.LifetimeOver` | src/agents/acp-spawn-parent-stream.ts:267-277 | a timeout notice, then disposal |
| `StreamRelayHandle.Relay.DisposeRelay` | src/agents/acp-spawn-parent-stream.ts:357-367 | disposal disarms both timers, once |
| `StreamRelayHandle.LogStepWrites` | src/agents/acp-spawn-parent-stream.ts:121-168 | a line is added behind what was written and pending, the buffer stays short, and what is pending is due |
| `StreamRelayHandle.LogWaits` | src/agents/acp-spawn-parent-stream.ts:121-168 | below 16384 characters lines wait, and a flush hands on all that waits as one chunk, and nothing when nothing waits |
| `StreamRelayHandle.LogIsComplete` | src/agents/acp-spawn-parent-stream.ts:121-168 | over every run each log line is written or pending, once and in order |
| `StreamRelayHandle.LogBuffer.FlushLogBuffer` | src/agents/acp-spawn-parent-stream.ts:121-143 | hands the whole buffer on as one chunk |
| `StreamRelayHandle.LogBuffer.WriteLogLine` | src/agents/acp-spawn-parent-stream.ts:144-168 | appends, and flushes at 16384 characters or schedules |
| `StreamRelayHandle.LogBuffer.RunMicrotask` | src/agents/acp-spawn-parent-stream.ts:144-153 | the scheduled flush hands on what is pending and may be scheduled again |
| `ToolLocations.KeyInjective` | src/acp/event-mapper.ts:167 | different locations have different keys, also when paths contain colons and digits |
| `ToolLocations.LocationMap.AddToolLocation` | src/acp/event-mapper.ts:147-172 | a known location or a path already held adds nothing; a line replaces the entry without one and is appended |
| `LocationWalk.MapIsKept` | src/acp/event-mapper.ts:147-172 | after any additions the map holds exactly the locations with a line, and those without whose path never came with one |
| `LocationWalk.OrderDoesNotMatter` | src/acp/event-mapper.ts:147-172 | the set held depends on the set added only |
| `LocationWalk.CollectToolLocations` | src/acp/event-mapper.ts:186-242 | the recursive walk with its early returns visits the first nodes, within the budget, of the preorder down to depth four, and adds what they hold in that order |
| `LocationWalk.WithinLimits` | src/acp/event-mapper.ts:186-242 | at most 100 nodes are visited, and a value within both limits is walked like an unbounded walk would |
| `LocationWalk.ExtractToolCallLocations` | src/acp/event-mapper.ts:404-410 | each value has its own budget; the result has no duplicates, is the set kept of all additions, and has the order in which they were put in |
| `WalkOrder.NodeFirst` | src/acp/event-mapper.ts:192-195 | a node is visited before what is nested in it, and nothing deeper than four |
| `WalkOrder.OneDeeper` | src/acp/event-mapper.ts:204-212 | a nested value is walked one level deeper |
| `WalkOrder.LeftToRight` | src/acp/event-mapper.ts:204-241 | what is nested is walked from left to right, each part whole before the next begins |
| `WalkOrder.RecordsAlike` | src/acp/event-mapper.ts:204-241 | a record is walked like the list of what is nested in it |
| `WalkOrder.BudgetCuts` | src/acp/event-mapper.ts:192-241 | the budget cuts the walk off wherever it stands |
| `WalkOrder.OwnAre` | src/acp/event-mapper.ts:197-231 | a record names its acceptable paths with the line of the record, and text markers name theirs without a line |
| `WalkOrder.FoundIff` | src/acp/event-mapper.ts:404-410 | a location is found exactly when a visited node of some value names it, and, without a line, when none names its path with one |
| `WalkOrder.PutLast` | src/acp/event-mapper.ts:167-171 | a location of a new path is put last |
| `WalkOrder.PutInstead` | src/acp/event-mapper.ts:156-171 | a location with a line removes that of the path without one and is put last; the others keep their order |
| `WalkOrder.PutBeside` | src/acp/event-mapper.ts:156-171 | another line of a path that has lines is put last |
| `WalkOrder.NothingPut` | src/acp/event-mapper.ts:160-162 | a location already there, or a bare path already there, changes nothing |
| `PromptText.ByteLengthCut` | src/acp/event-mapper.ts:264-266 | UTF-8 lengths add up where no surrogate pair is cut |
| `PromptText.ByteLengthAcrossPair` | src/acp/event-mapper.ts:264-266 | across a pair they do not, so the line break between blocks matters |
| `PromptText.JoinGrows` | src/acp/event-mapper.ts:263-270 | the running total grows by what the joined text grows by |
| `PromptText.PartsOf` | src/acp/event-mapper.ts:248-262 | what each kind of block contributes: its text, a resource's text that is not empty, or a link with its title and address |
| `PromptText.JoinLinesConcat` | src/acp/event-mapper.ts:262-275 | parts are joined in order with one line break between them |
| `PromptText.ByteLengthOfUnit` | src/acp/event-mapper.ts:264-266 | a single unit takes one, two or three bytes |
| `PromptText.ExtractTextFromPrompt` | src/acp/event-mapper.ts:244-275 | throws exactly when there is some text and its joined UTF-8 length exceeds the limit, and else returns the joined text |
| `PromptText.LimitIff` | src/acp/event-mapper.ts:262-270 | throwing and exceeding the limit are the same exactly when there is some text or the limit is not negative |
| `Utf16.SafeWindow` | src/utils.ts:249-262 | the ends split no pair and at most one unit is lost at each |
| `Utf16.SafeWindowLargest` | src/utils.ts:249-262 | no part of the requested range that splits no pair reaches further |
| `Utf16.AskedIs` | src/utils.ts:237-248 | positions count from the start, negative ones from the end, both are kept within the input, and either may come first |
| `Utf16.SliceUtf16Safe` | src/utils.ts:237-264 | for all start and end values, negative and swapped ones included, the slice is that window |
| `Utf16.TruncateUtf16Safe` | src/utils.ts:266-272 | a prefix of the limit's length, or one less before a pair |
| `Utf16.SliceKeepsPairs` | src/utils.ts:237-264 | a unit of the slice is a lone surrogate exactly when it was one in the input |
| `Utf16.SliceWellFormed` | src/utils.ts:237-264 | slices of well-formed UTF-16 are well-formed |
| `Utf16.SliceKeepsCodePoints` | src/utils.ts:237-264 | the code points of a slice are a stretch of the input's |
| `Utf16.EncodedIsRead` | src/utils.ts:237-247 | the code points meant here are those of UTF-16: any sequence of code points but surrogates is read back from its units |
| `PairNotify.Notifier.Announce` | extensions/device-pair/notify.ts:277-290 | a request is sent to every subscriber that wants it, and delivered if one send succeeds |
| `PairNotify.Notifier.Prune` | extensions/device-pair/notify.ts:261-266 | what is no longer pending or was announced more than a day ago is forgotten |
| `PairNotify.Notifier.NotifyPendingPairingRequests` | extensions/device-pair/notify.ts:250-311 | one poll sends the messages and leaves the state of its specification, and writes only on a change |
| `PairNotify.Notifier.SwitchOn` | extensions/device-pair/notify.ts:157-179 | adds the subscriber, or replaces it when the mode differs |
| `PairNotify.Notifier.SwitchOff` | extensions/device-pair/notify.ts:385-394 | removes the first subscriber with the key |
| `PairNotifyRuns.FileRoundTrip` | extensions/device-pair/notify.ts:56-123 | a clean state is read back as it was written |
| `PairNotifyRuns.ReadIsClean` | extensions/device-pair/notify.ts:56-108 | whatever state was written, what is read is clean and reading again changes nothing |
| `PairNotifyRuns.WrittenIsRead` | extensions/device-pair/notify.ts:56-123 | reading a file that the notifier wrote is reading the state it wrote |
| `PairNotifyRuns.NormalizedIsCleanIff` | extensions/device-pair/notify.ts:56-108 | whatever else a file holds, with fractions and missing values, what is read is clean and read back as it is written if and only if no named request has a time stamp between 0 and 1 |
| `PairNotifyRuns.TruncIs` | extensions/device-pair/notify.ts:56-108 | fractions of stored numbers are cut off towards zero |
| `PairNotifyRuns.UnstampedIsNow` | extensions/device-pair/notify.ts:56-108 | a stored subscriber without a time is read as one that subscribes now |
| `PairNotifyRuns.UpsertKeeps` | extensions/device-pair/notify.ts:157-179 | subscriber keys stay unique |
| `PairNotifyRuns.PollAnnounces` | extensions/device-pair/notify.ts:250-311 | a poll announces only pending requests not announced within a day, remembers each with its time, and forgets what is not pending, whatever the subscribers |
| `PairNotifyRuns.PollFacts` | extensions/device-pair/notify.ts:291-305 | with unique keys a poll removes exactly the one-shot subscribers that got a message |
| `PairNotifyRuns.NotTwiceADay` | extensions/device-pair/notify.ts:250-394 | over every run of polls and commands, from any file, for any targets and with a clock that does not run back, a request is not announced again while it stays pending and a day has not passed |
| `PairNotifyRuns.OnKeepsIff` | extensions/device-pair/notify.ts:56-179 | switching a chat on leaves keys unique for the next reader if and only if its account id has no outer spaces, or the list is left as it is, or nobody has the key of the trimmed target |
| `PairNotifyRuns.KeysStayUnique` | extensions/device-pair/notify.ts:56-394 | so keys stay unique over every run whose account ids have no outer spaces |
| `PairNotifyRuns.PaddedIsDoubled` | extensions/device-pair/notify.ts:56-179 | a chat with a padded account id that is switched on twice is listed twice |
| `PairNotifyRuns.MessagesToSubscriber` | extensions/device-pair/notify.ts:270-305 | a subscriber gets as many messages in a poll as there are new requests that get through to it, and a one-shot subscriber is then gone |
| `PairNotifyTold.MessagesAre` | extensions/device-pair/notify.ts:250-290 | a message is sent in a poll exactly when it tells a subscriber of a pending request that was not announced within a day, concerns it and gets through; a one-shot subscriber is concerned only by requests with a time not before its subscription |
| `PairNotifyTold.RememberedIff` | extensions/device-pair/notify.ts:250-311 | after a poll a pending request is remembered exactly when it was announced within a day, then with its old time, or when it now got through to somebody it concerns, then with the time of the poll |
| `PairNotifyTold.RememberedAre` | extensions/device-pair/notify.ts:250-311 | nothing else is remembered after a poll |
| `PairNotifyTold.OnAdds` | extensions/device-pair/notify.ts:157-179 | switching on leaves the others as they were and the target with the mode asked for, from now on, or as it was when it had that mode |
| `PairNotifyTold.KeyInjective` | extensions/device-pair/notify.ts:139-155 | targets without a bar in them have different keys |
| `PairNotifyRuns.OnceGetsSeveral` | extensions/device-pair/notify.ts:270-305 | a one-shot subscriber gets two messages in one poll |
| `PairNotifyRuns.OffIff` | extensions/device-pair/notify.ts:139-394 | from every file with unique keys, switching a chat on and off leaves no subscription of it if and only if its account id has no outer spaces, or both commands acted on another chat with the same key |
| `PairNotifyRuns.OffFromNoneIff` | extensions/device-pair/notify.ts:139-394 | from a file without subscribers: if and only if the account id has no outer spaces |
| `PairNotifyRuns.SpacedAccountStaysOn` | extensions/device-pair/notify.ts:139-155 | a literal chat with a padded account id stays subscribed after off |
| `PhoneArm.UniqSortedIs` | extensions/phone-control/index.ts:35-37 | sorted, without duplicates, and with just the trimmed names |
| `PhoneArm.CanonicalForm` | extensions/phone-control/index.ts:35-37 | two lists get the same sorted form exactly when they name the same commands |
| `PhoneArmRuns.GroupsAre` | extensions/phone-control/index.ts:29-44 | the commands of each group; the last group has those of the other three |
| `PhoneArm.PhoneControl.Arm` | extensions/phone-control/index.ts:369-407 | the group's commands are allowed and not denied, other commands keep their rights, and the record holds the difference |
| `PhoneArm.PhoneControl.DisarmNow` | extensions/phone-control/index.ts:183-235 | undoes what the record says, for both record versions; the lists are rewritten exactly when something is left to undo |
| `PhoneArm.PhoneControl.Tick` | extensions/phone-control/index.ts:293-307 | disarms exactly when there is an expiry time and it has come |
| `PhoneArmRuns.ArmAllows` | extensions/phone-control/index.ts:369-407 | arming leaves every command of the group allowed and none denied |
| `PhoneArmRuns.ArmDisarmRestores` | extensions/phone-control/index.ts:183-407 | disarming gives both lists back, sorted and without duplicates |
| `PhoneArmRuns.DisarmedAre` | extensions/phone-control/index.ts:183-235 | disarming takes back what a record of the second version added and adds what any record removed, name by name, and touches no other command |
| `PhoneArmRuns.ExpiryIff` | extensions/phone-control/index.ts:293-407 | a check before the expiry time changes nothing, one from that time on gives both lists back |
| `PhoneArmRuns.NothingToUndoIff` | extensions/phone-control/index.ts:183-235 | the lists are left alone exactly when disarming would not change the rights |
| `PhoneArmRuns.RearmRestoresIff` | extensions/phone-control/index.ts:369-407 | after arming twice, disarming gives the first lists back exactly when the first arming changed nothing |
| `PhoneArmRuns.StepKeeps` | extensions/phone-control/index.ts:183-407 | arming while disarmed, disarming, expiry and edits of other commands keep the record equal to the difference from the intended rights |
| `PhoneArmRuns.RestoredAfterRun` | extensions/phone-control/index.ts:183-407 | whenever such a run is disarmed, by hand or by expiry, the rights are the original ones with the edits made in between |
| `PhoneArmRuns.EditsSurvive` | extensions/phone-control/index.ts:183-407 | an edit decides the rights of every command outside the groups |
| `CronUsage.AddRun` | scripts/cron_usage_report.ts:171-213 | one run adds the same share to its job and to its row |
| `CronUsage.ShareIs` | scripts/cron_usage_report.ts:171-213 | what one run adds: its input, its output, and its total or else their sum, each cut at zero, and whether it is one without usage |
| `CronUsage.ModelIsTrimmed` | scripts/cron_usage_report.ts:165 | models are named without outer spaces, and a run without one counts for the model called unknown |
| `CronUsage.Aggregate` | scripts/cron_usage_report.ts:148-215 | the report holds just the jobs and models with selected runs, each with the sum over those, and each job equals the sum of its rows |
| `CronUsage.SumByField` | scripts/cron_usage_report.ts:185-213 | each reported number is the sum of that number over the selected runs |
| `CronUsage.JobReportedIff` | scripts/cron_usage_report.ts:159-170 | a job is reported exactly when one of its runs is within the times and of the model and job asked for |
| `CronUsage.ReportBalances` | scripts/cron_usage_report.ts:148-215 | runs and the three token totals of a job are the sums over its models, and runs are those without usage plus those counted |

## Left out

- Bindings: configuration loading, agent lookup and runtime defaults are functions of the environment; lower-casing outside ASCII in ids and channel names is not modelled.
- Bindings: the digest is any function to plain strings; agreement assumes that no two configured conversations of a channel and account share one, which a hash cut to 16 digits does not guarantee.
- Masking: regular expressions are arbitrary lists of spans with the shape of their patterns; texts are sequences of characters, not bytes.
- Masking.RoundTrip: texts with a needle of an issued placeholder are not covered; some of them come back and some do not (`NeedleMayStay`, `NeedleMatters`), and no exact condition is given.
- MaskPasses.Translate: the retry loop around a translation, its delays and the test for a missing client are not modelled.
- Worker pool: the translation of a file is an arbitrary outcome; cancellation of the context from outside the pool does not happen in the program and is not modelled.
- Tagged document: YAML, the translation memory and HTML blocks; front matter is the three translated fields, where an item that is not a string is its printed form.
- FrontValues.TranslationIsRead: says nothing where earlier lines hold both the start and the end marker of a value; what is read then depends on the text between those.
- Relay extension: debugger, tab, storage and socket calls are steps that succeed or fail; badges, titles, forwarded commands, reconnect delays and the table of pending requests do not touch the tab maps.
- Relay extension: the per-tab lock that ignores a second click during an operation is not modelled, so the model has more interleavings than the program.
- RelayTabs.RestartRestores: the snapshot is keyed by tab id; the order of its entries in storage is not modelled, and restoring is proved for every order.
- Session store: random session ids are parameters, and objects handed out are copies, so a caller that writes to a session it was given is not modelled.
- Stream relay: the wording of notices, the duration in the done notice, trimming of notice texts, file writes and parameter clamps.
- StreamRelayHandle.Relay.OnLifecycle: the phase and the error text arrive trimmed.
- Tool locations: which record fields hold paths and lines, text markers and the normalization of a path are inputs of the walk; the remaining functions of the event mapper are left out.
- PromptText.ExtractTextFromPrompt: titles and addresses of resource links arrive escaped.
- Utf16.SliceUtf16Safe: positions are integers, and a missing end is the length.
- Pairing notifier: a failing file write, a command that overlaps a poll, fractional thread ids in commands, and request ids that name members of every JavaScript object are not modelled; the clock is positive.
- PairNotifyRuns.ReadIsClean: is about files that the notifier wrote, whose time stamps are integers; `NormalizedIsCleanIff` has the other files, and a run that begins with one of those begins with the state read from it.
- Phone arming: failures of the two writes, parsing of durations and of the state file; strings are ordered by character rather than by UTF-16 unit.
- Usage report: reading and parsing the log, the final sorting of rows, and job ids that name members of every JavaScript object.
- Command-line parsing, display strings, plugin registration, permission requests and build scripts have no property across steps.
