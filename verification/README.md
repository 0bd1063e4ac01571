# Office add-ins and daemon: verified model

A Dafny model of the parts of the repository that carry its logic: the Word, Excel and
PowerPoint task panes, the code they share, and the daemon's add-in channel. Host calls
(Office.js), sockets, timers, storage, clocks and randomness appear as parameters or as
events; what the modelled code decides from them is followed branch by branch.

`dafny verify dfyconfig.toml` checks the whole project.

| file | what it models |
|---|---|
| `Outline.dfy` | the heading outline: a loop over a stack whose nodes are shared with the tree, refined to a recursive forest |
| `MatchMapping.dfy`, `FindText.dfy`, `WordReplace.dfy` | assigning the host's search hits to paragraphs, and the finding and the real, dry and validate-only replacement built on it |
| `ListMetadata.dfy` | grouping list paragraphs by list, and resolving what a list mutation is aimed at |
| `Fingerprint.dfy` | the FNV-1a fingerprint that guards accepting and rejecting tracked changes |
| `TaskHistory.dfy`, `Invocations.dfy` | the task store, and tool calls as an interleaving of the segments between await points |
| `Heartbeat.dfy`, `Registries.dfy`, `Channel.dfy` | the add-in channel: heartbeats, session registry, connections |
| `ChannelRuns.dfy`, `ChannelSessions.dfy`, `SessionLife.dfy` | what holds over every run of the channel |
| `Connection.dfy` | the Word connect and reconnect machine with its backoff |
| `TextReplace.dfy`, `SlideText.dfy` | text replacement with and without regard to case, and PowerPoint's tool built on it |
| `ColumnLetters.dfy`, `RequestId.dfy`, `ToolPermissions.dfy` | column letters, fallback request ids, tool permissions |
| `Strings.dfy`, `Digits.dfy`, `Wrappers.dfy` | occurrences in strings, positional notation, options |

Objects the code updates in place are classes whose methods are proved against functions
on values (`View()` after is a function of `View()` before); what the code is for is then
proved about those functions, over all inputs or all runs.

## What the code does otherwise than one may expect

Each of these is a lemma with the exact condition, most with a concrete input beside it; only
for PowerPoint's count across seams no condition on the arguments exists, as said there.

- A connection is closed at the third missed pong in a row (`ChannelRuns.CloseIsExact`);
  doc/spec/02-registration-protocol.md:414-415 says two.
- A session id that belongs to another runtime is accepted
  (`ChannelSessions.TakeoverIsReachable`, `TakenSessionFallsWithFormerOwner`); its former owner's
  runtime holds on to it even when it is removed (`SessionLife.RemovedSessionIsGone`);
  doc/spec/02-registration-protocol.md:247-250 says it is rejected.
- Connections, runtimes and sessions fall out of step by three kinds of events and no others
  (`ChannelSessions.InStepIsKeptExactly`). Removing the old connection after its add-in has
  reconnected takes the new connection's runtime (`LateRemovalCutsOffReconnect`). A second
  session on a runtime leaves the first active and held by none until it is added or removed by
  name (`AbandonedSessionStaysActive`); calls to it go to whatever runtime the instance has
  (`OrphanIsLetThroughExactly`).
- In Word two reconnect timers can be pending (`Connection.RunsStayTidyExactly` says when,
  `TwoTimersAreReachable` gives a run); exactly then a connect misses one when it clears
  (`TimerOutlivesClearExactly`), which later supersedes a socket that is open
  (`StrayTimerIsReachable`).
- A cancelled call can still succeed if another call shares its request id
  (`Invocations.OkAfterCancelNeedsATwin`; `FinalCheckExactly` says when a call succeeds); a
  cancellation that is never spent refuses a later call with that id
  (`Invocations.RefusedAtStartExactly`).
- PowerPoint counts replacements in the text after it was replaced. Where no match can join a
  replacement to its surroundings, the number is right exactly when nothing matched, the
  replacement holds the search text once and is not just it, or it is just it up to case and
  every text with a match is changed (`SlideText.ReportIsRightExactly`); where one can, it
  depends on the text around, and there is no condition on the arguments alone (`SeamsDecide`).
- Word's scan can place the hits of whole-word and wildcard searches, and of searches of a
  selection, too early (`MatchMapping.ExactIffLeftmost`, `PlainSearchIsExactly`): a call
  scoped to some paragraphs can replace text in others (`WordReplace.SelectionEscapesScope`).
  It keeps its scope exactly when the leftmost places of the hits are in scope where their true
  places are (`ScopeIsKeptExactly`); for a plain search the leftmost places are the first hits
  of the same search on the whole body (`PlainScopeIsKeptExactly`).
- In Word an unmapped hit is compared as paragraph 0 (`WordReplace.ScopeIsKept`): a call scoped
  to that paragraph replaces paragraph marks everywhere (`UnmappedHitEscapesScope`).
- `word.find_text` answers with one match where the host found none, if the query occurs
  inside other text (`FindText.ReportsMoreExactly`).
- A tool of a disabled group that the mode did not allow is not switched off and returns with a
  higher mode (`ToolPermissions.DisabledToolsComeBackExactly`).
- `add_item` after a paragraph of another list resolves its target but finds no anchor
  (`ListMetadata.AnchorMayBeMissing`).

## Model

| member | source | states |
|---|---|---|
| `Outline.NestOutline` | src/office-ctl/word/public/taskpane.js:4930-4941 | the loop over a stack that shares its nodes with the tree returns objects whose links are exactly nearest-shallower parenthood and that spell out the recursive forest `Nest` |
| `Outline.PopDeeper` | src/office-ctl/word/public/taskpane.js:4935 | popping stops with the parent of the new heading on top: the nearest earlier heading of strictly smaller level, or nothing |
| `Outline.Attach` | src/office-ctl/word/public/taskpane.js:4934-4938 | pushing the copy under the shared top of the stack keeps every earlier node's children and adds one link |
| `Outline.LinkedRepresents` | src/office-ctl/word/public/taskpane.js:4930-4941 | copies linked by parenthood stand, slice by slice, for the recursive forest |
| `Outline.FlattenNest` | src/office-ctl/word/public/taskpane.js:4930-4941 | the preorder of the outline is the heading sequence |
| `Outline.NestFlatten` | src/office-ctl/word/public/taskpane.js:4930-4941 | nesting the preorder of a well nested forest gives that forest back |
| `Outline.OutlineIsUnique` | src/office-ctl/word/public/taskpane.js:1280-1295 | the outline is the only well nested forest with that preorder |
| `Outline.NestIsWellNested` | src/office-ctl/word/public/taskpane.js:4930-4941 | children are deeper than their parent and siblings never get deeper |
| `Outline.NestParents` | src/office-ctl/word/public/taskpane.js:4935-4937 | each node's parent is the nearest earlier heading of strictly smaller level, or it is a root when there is none |
| `Outline.GetOutline` | src/office-ctl/word/public/taskpane.js:1280-1295 | the outline of a document is the forest of its headings, which are exactly its paragraphs of levels 1 to max_level, in order |
| `Outline.DepthLimitPrunes` | src/office-ctl/word/public/taskpane.js:1282-1293 | limiting the level before nesting is the same as cutting the deep subtrees off the full outline |
| `Outline.OutlineDepth` | src/office-ctl/word/public/taskpane.js:1282-1293 | the same for get_outline on the paragraphs of a document |
| `MatchMapping.MapMatchesToParagraphs` | src/office-ctl/word/public/taskpane.js:2353-2379 | the two-level scan computes the greedy placement, and each match shows its paragraph, its ordinal and the text around it |
| `MatchMapping.ScanParagraph` | src/office-ctl/word/public/taskpane.js:2358-2376 | the inner loop keeps the scan's state, or ends it when the hits run out |
| `MatchMapping.KeepsUp` | src/office-ctl/word/public/taskpane.js:2358-2376 | exchange step: a scan that is at or before every true place so far is so at the next one |
| `MatchMapping.GreedyIsLeftmost` | src/office-ctl/word/public/taskpane.js:2353-2379 | whatever places the first hits really have, the scan maps at least those hits, each at or before its place |
| `MatchMapping.MapsWhatCanBePlaced` | src/office-ctl/word/public/taskpane.js:2353-2379 | m hits are mapped exactly when the first m can be placed in order and disjointly at all |
| `MatchMapping.GreedyIsPlacement` | src/office-ctl/word/public/taskpane.js:2353-2379 | the mapped places are in order, disjoint, and occurrences of their hits |
| `MatchMapping.GreedyIsUnique` | src/office-ctl/word/public/taskpane.js:2353-2379 | two scans of the same hits map them alike |
| `MatchMapping.ExactIffLeftmost` | src/office-ctl/word/public/taskpane.js:2353-2379 | the scan finds the true places exactly when they are the leftmost ones |
| `MatchMapping.PlainSearchIsExactly` | src/office-ctl/word/public/taskpane.js:2353-2379 | for a plain search of the body or of a selection, however many hits the limit cuts off, the scan finds the true places exactly when the first hit is the first occurrence in the body |
| `MatchMapping.BodySearchIsExact` | src/office-ctl/word/public/taskpane.js:2353-2379 | for a plain search of the whole body it always does |
| `MatchMapping.ScanIsBody` | src/office-ctl/word/public/taskpane.js:2353-2379 | whatever region a plain search looked in, the scan answers with the first hits of the same search on the whole body |
| `MatchMapping.WholeWordIsMisplaced` | src/office-ctl/word/public/taskpane.js:2353-2379 | a whole-word hit is reported inside an earlier word: a concrete document |
| `MatchMapping.EmptyHitIsSearchText` | src/office-ctl/word/public/taskpane.js:2363-2364 | a hit without text is looked up as if its text were the search text |
| `MatchMapping.EmptyHitEndsScan` | src/office-ctl/word/public/taskpane.js:2363-2374 | where the search text stands in no paragraph a hit without text stays unmapped, and so do all hits after it |
| `MatchMapping.EmptyHitHidesTheNext` | src/office-ctl/word/public/taskpane.js:2363-2374 | a search for any character finds a picture and a letter behind it, and neither is mapped: a concrete document |
| `MatchMapping.NoHitsStillMatch` | src/office-ctl/word/public/taskpane.js:2362-2375 | with no hits at all the scan still reports a place of the search text, one, exactly if there is one |
| `FindText.FindText` | src/office-ctl/word/public/taskpane.js:1297-1319 | the answer of find_text: the scan's matches for the hits kept by the limit, and whether there were more hits than that |
| `FindText.ShowsFirstHits` | src/office-ctl/word/public/taskpane.js:1309-1317 | whatever the search, the answer shows the first min(limit, hits) hits with their own texts, none in a later paragraph than its hit |
| `FindText.ReportsMoreExactly` | src/office-ctl/word/public/taskpane.js:1309-1317 | find_text answers with more matches than the host found exactly when the host found none and the query occurs all the same; then with one |
| `FindText.MatchesStandAtHits` | src/office-ctl/word/public/taskpane.js:1297-1319 | for a plain search the answer tells of each hit up to the limit, and of no other, its text, the paragraph it stands in, its ordinal there and the text around it |
| `MatchMapping.OccurrenceIsOrdinal` | src/office-ctl/word/public/taskpane.js:2361-2369 | the occurrence number is the ordinal of the match among those of its paragraph |
| `MatchMapping.HitsAreMapped` | src/office-ctl/word/public/taskpane.js:2353-2379 | for a non-empty search text min(limit, hits) hits are mapped, match k shows hit k's text, none in a later paragraph than its hit |
| `WordReplace.FilterReplaceRanges` | src/office-ctl/word/public/taskpane.js:2381-2391 | selects exactly the hits in scope and counts the others one by one |
| `WordReplace.SelectedIsInScope` | src/office-ctl/word/public/taskpane.js:2381-2391 | a hit is selected exactly when its compared index lies in the scope, in order |
| `WordReplace.ScopeIsKept` | src/office-ctl/word/public/taskpane.js:2385-2386 | selected hits are known to lie in scope exactly when none is unmapped or paragraph 0 is out of scope |
| `WordReplace.HitsAreConserved` | src/office-ctl/word/public/taskpane.js:2306-2351 | replaced, or listed, plus skipped is the number of hits whatever the limit and scope; a scoped success without partial_ok has skipped none |
| `WordReplace.ReplaceText` | src/office-ctl/word/public/taskpane.js:2306-2351 | the answer, and afterwards a range holds the replacement exactly when the call was not refused, it is below the end of slice(0, limit) and its paragraph, 0 for an unmapped one, is in scope |
| `WordReplace.AnswerIsDecided` | src/office-ctl/word/public/taskpane.js:2321-2351 | a call is refused exactly when it is scoped, without partial_ok, and some hit is out of scope or beyond the limit; an unscoped one replaces or lists min(limit, hits), or hits + limit for a negative limit |
| `WordReplace.BodyReportsAreTrue` | src/office-ctl/word/public/taskpane.js:2329-2334 | each match a plain body search reports is a replaced or listed hit, in order, with its text, paragraph, ordinal and surrounding text |
| `WordReplace.ValidateReplaceTextOnly` | src/office-ctl/word/public/taskpane.js:996-1031 | the validate-only path gives the answer the real run gives, mutating nothing |
| `WordReplace.RehearsalIsExact` | src/office-ctl/word/public/taskpane.js:996-1031 | validate-only and real run agree: both refuse, or the same matches, skips and count |
| `WordReplace.ScopedSuccessIsTotal` | src/office-ctl/word/public/taskpane.js:2324-2327 | without partial_ok a scoped success replaces every hit |
| `WordReplace.LeftmostDecides` | src/office-ctl/word/public/taskpane.js:2308-2323 | for every search, whole-word and wildcard ones included, the hits replaced are exactly those whose leftmost place is in scope |
| `WordReplace.ScopeIsKeptExactly` | src/office-ctl/word/public/taskpane.js:2308-2323 | the hits replaced are exactly those truly in scope if and only if each hit's leftmost place is in scope where its true place is |
| `WordReplace.LeftmostExists` | src/office-ctl/word/public/taskpane.js:2353-2379 | hits that have places at all have leftmost ones |
| `WordReplace.PlainScopeIsKeptExactly` | src/office-ctl/word/public/taskpane.js:2308-2323 | for a plain search the places that decide are the first hits of the same search on the whole body |
| `WordReplace.PlainScopeIsExact` | src/office-ctl/word/public/taskpane.js:2308-2323 | so the scope is kept when the first hit is the first occurrence in the body |
| `WordReplace.BodyScopeIsExact` | src/office-ctl/word/public/taskpane.js:2308-2323 | and by every plain search of the body |
| `WordReplace.SelectionEscapesScope` | src/office-ctl/word/public/taskpane.js:2309-2323 | a plain search of a selection, scoped to paragraph 0, succeeds and replaces text of paragraph 1: a concrete document |
| `WordReplace.UnmappedHitEscapesScope` | src/office-ctl/word/public/taskpane.js:2384-2386 | a search for paragraph marks scoped to paragraph 0 replaces the mark of paragraph 1 too, and reports both without a paragraph: a concrete document |
| `ListMetadata.CollectListMetadata` | src/office-ctl/word/public/taskpane.js:2097-2145 | one entry per list, its items strictly increasing and exactly its live paragraphs, counts and ends right, entries ordered by first paragraph |
| `ListMetadata.EntriesShowParagraphs` | src/office-ctl/word/public/taskpane.js:2113-2140 | items show their paragraphs as they stand; the kind is that of the first item's level, if the host reports one; first and last paragraph are those of the first and last item |
| `ListMetadata.SortSorts` | src/office-ctl/word/public/taskpane.js:2142 | the final sort orders whatever it is given by first paragraph and loses nothing |
| `ListMetadata.SortedStays` | src/office-ctl/word/public/taskpane.js:2142 | the final sort leaves the insertion order unchanged |
| `ListMetadata.FirstIsLeast` | src/office-ctl/word/public/taskpane.js:2123 | first_paragraph_index is the least paragraph of the list |
| `ListMetadata.OneEntryPerList` | src/office-ctl/word/public/taskpane.js:2113-2131 | no list has two entries |
| `ListMetadata.ItemsArePartitioned` | src/office-ctl/word/public/taskpane.js:2113-2141 | every live list paragraph is in exactly one entry and nothing else is |
| `ListMetadata.OwnerIsList` | src/office-ctl/word/public/taskpane.js:2171-2172 | the owning entry found for a paragraph is that of its own list; none exactly when it is not a live list item |
| `ListMetadata.NamedIsList` | src/office-ctl/word/public/taskpane.js:2160-2165 | an entry is found for a list id exactly when a live paragraph belongs to it |
| `ListMetadata.TargetIsDecided` | src/office-ctl/word/public/taskpane.js:2158-2181 | when a mutation is refused, and which list and paragraph it is aimed at, in terms of the document |
| `ListMetadata.AnchorMayBeMissing` | src/office-ctl/word/public/taskpane.js:2082-2087 | add_item after a paragraph of another list resolves but has no anchor: exactly when it happens |
| `Fingerprint.StableHash` | src/office-ctl/word/public/taskpane.js:5010-5017 | the signed loop prints the unsigned FNV-1a hash modulo 2^32 in eight hex digits |
| `Fingerprint.PrimeIsInvertible` | src/office-ctl/word/public/taskpane.js:5014 | multiplying by 16777619 modulo 2^32 is undone by 899433627, both ways |
| `Fingerprint.StepIsBijective` | src/office-ctl/word/public/taskpane.js:5012-5015 | each step is a bijection on the hash state |
| `Fingerprint.SuffixIsBijective` | src/office-ctl/word/public/taskpane.js:5012-5015 | a common suffix neither makes nor hides a collision |
| `Fingerprint.EditIsMissedExactly` | src/office-ctl/word/public/taskpane.js:5010-5017 | an edit goes unnoticed exactly when the edited parts collide from the state the common prefix leaves |
| `Fingerprint.SubstitutionIsSeen` | src/office-ctl/word/public/taskpane.js:5010-5017 | inputs that differ in exactly one code unit have different hashes |
| `Fingerprint.InsertionIsMissedExactly` | src/office-ctl/word/public/taskpane.js:5010-5017 | an inserted code unit goes unnoticed exactly when it is a fixed point of the step at that state |
| `Fingerprint.Hex8IsInjective` | src/office-ctl/word/public/taskpane.js:5016 | the padded hexadecimal text has eight digits and tells hashes apart |
| `Fingerprint.Hex8ReadsBack` | src/office-ctl/word/public/taskpane.js:5016 | the text is the hash in base sixteen |
| `Fingerprint.KnownHashes` | src/office-ctl/word/public/taskpane.js:5010-5017 | the hashes of the empty text and of "a" are the published FNV-1a ones |
| `Fingerprint.TrackedChangeFingerprint` | src/office-ctl/word/public/taskpane.js:5005-5008 | the fingerprint is the hash of the five joined fields |
| `Fingerprint.JoinedInOrder` | src/office-ctl/word/public/taskpane.js:5005-5008 | the hashed text is the decimal index, author, date, type and text with U+001F between them |
| `Fingerprint.FieldEditIsMissedExactly` | src/office-ctl/word/public/taskpane.js:5005-5008 | when a change of one field leaves the fingerprint as it was |
| `Fingerprint.JoinedIsInjective` | src/office-ctl/word/public/taskpane.js:5005-5008 | without separators in author, date and type the hashed text determines index and change |
| `Fingerprint.SeparatorHidesADifference` | src/office-ctl/word/public/taskpane.js:5007 | with a separator in the author two different changes share a fingerprint |
| `Fingerprint.MutateTrackedChange` | src/office-ctl/word/public/taskpane.js:3170-3186 | out of range, stale, or exactly the addressed change is accepted or rejected; contents never change |
| `Fingerprint.ReportedAdmitsExactly` | src/office-ctl/word/public/taskpane.js:3170-3186 | a reported fingerprint lets a mutation through exactly when the change now at that index has the same hash; always when it is unchanged |
| `Fingerprint.OneUnitEditIsRefused` | src/office-ctl/word/public/taskpane.js:3177-3180 | after any one-code-unit substitution in any field the mutation is refused as stale |
| `TaskHistory.TaskHistoryStore.Start` | src/office-ctl/common/task-history.js:15-27 | the store after a start: the task knows whether its id was cancelled before |
| `TaskHistory.TaskHistoryStore.Finish` | src/office-ctl/common/task-history.js:29-44 | records and clears the task only if it is still the running one; the history keeps the newest up to the limit, none for a negative one |
| `TaskHistory.TaskHistoryStore.Cancel` | src/office-ctl/common/task-history.js:46-52 | the id joins the set and a running task with it is flagged in place |
| `TaskHistory.TaskHistoryStore.ConsumeCancellation` | src/office-ctl/common/task-history.js:54-56 | removes the id and tells whether it was there |
| `Invocations.Taskpane.InvokeTool` | src/office-ctl/word/public/taskpane.js:522-530 | the segment before the first await is one step of the machine |
| `Invocations.Taskpane.Resume` | src/office-ctl/word/public/taskpane.js:733-736 | the segment after the host returns is one step: last cancellation check, record, reply |
| `Invocations.Taskpane.Throw` | src/office-ctl/word/public/taskpane.js:737-741 | a host error is one step: recorded, then rejected; a cancellation stays unspent |
| `Invocations.Taskpane.HandleCancel` | src/office-ctl/word/public/taskpane.js:498-500 | a cancel is one step of the machine |
| `Invocations.Taskpane.Catch` | src/office-ctl/word/public/taskpane.js:491-495 | the rejected promise is answered once, with ok false |
| `Invocations.RepliedExactlyOnce` | src/office-ctl/word/public/taskpane.js:483-502 | in every interleaving a call has one reply once it is done and none before |
| `Invocations.AnswersAreFinal` | src/office-ctl/word/public/taskpane.js:522-742 | an answered call never changes again |
| `Invocations.EveryCallCanBeAnswered` | src/office-ctl/word/public/taskpane.js:522-742 | from every reachable point at most two more events answer a call |
| `Invocations.FinalCheckExactly` | src/office-ctl/word/public/taskpane.js:733-736 | when the host has returned a call succeeds exactly when no cancel of its id is outstanding; otherwise it is cancelled and the cancellation spent |
| `Invocations.OkAfterCancelNeedsATwin` | src/office-ctl/word/public/taskpane.js:733-736 | a success after a cancel of its id needs another call with that id that spent the cancellation in between |
| `Invocations.CancelledNeverSucceeds` | src/office-ctl/word/public/taskpane.js:498-500 | with distinct request ids a call cancelled before its last check never succeeds |
| `Invocations.TwinDefeatsCancel` | src/office-ctl/word/public/taskpane.js:733 | with a shared id a cancelled call succeeds: a concrete run |
| `Invocations.RefusedAtStartExactly` | src/office-ctl/word/public/taskpane.js:524-531 | a call is rejected at once as disabled, whether cancelled or not; an enabled one as cancelled exactly when a cancel of its id is outstanding, whatever the preflight says; otherwise with the preflight's error exactly when there is one |
| `Invocations.RefusedIsNeverOk` | src/office-ctl/word/public/taskpane.js:488-531 | whatever follows, no call refused at its start, or without params, is answered ok |
| `Invocations.RepliesNameTheirCall` | src/office-ctl/word/public/taskpane.js:524 | an answer stands under the request id its call carries, or the message id when there is none |
| `Invocations.RecordsTellTheTruth` | src/office-ctl/common/task-history.js:29-44 | with distinct ids every record of a run tells how the call with its id ended: success exactly when answered ok, its error otherwise, cancelled by the error's code, under its own tool and intent |
| `Invocations.EndIsRecordedExactly` | src/office-ctl/common/task-history.js:29-44 | what ends a call is recorded first in line with its times and error, unless another call has become the running task |
| `Invocations.StartedIsRunning` | src/office-ctl/common/task-history.js:15-27 | a call that is not refused is the running task, with its deadline if it has a timeout other than zero |
| `Invocations.TasksAreConserved` | src/office-ctl/common/task-history.js:1-45 | in every run starts equal records, overwritten tasks and the running one; the history is the newest records up to the limit, 20 by default; the running task knows whether it was cancelled |
| `Heartbeat.AddinHeartbeatState.HandlePong` | src/office-mcp/daemon/src/addin_mgr/addin_heartbeat.rs:14-21 | accepts only the pending id, then clears it and the misses |
| `Heartbeat.AddinHeartbeatState.RecordTimeout` | src/office-mcp/daemon/src/addin_mgr/addin_heartbeat.rs:23-36 | the saturating count and the verdict |
| `Heartbeat.AddinHeartbeatState.StartPing` | src/office-mcp/daemon/src/addin_mgr/addin_heartbeat.rs:10-12 | a new ping replaces the pending one and keeps the misses |
| `Channel.AddinChannelServer.RegisterRuntime` | src/office-mcp/daemon/src/addin_mgr/addin_channel.rs:69-98 | registration is one step of the system: fresh heartbeat, runtime registered, or nothing when invalid |
| `Channel.AddinChannelServer.RemoveConnection` | src/office-mcp/daemon/src/addin_mgr/addin_channel.rs:150-168 | removal is one step: the connection and its instance's runtime go |
| `Channel.AddinChannelServer.StartPing` | src/office-mcp/daemon/src/addin_mgr/addin_channel.rs:174-190 | a ping uses up an id even when the connection is unknown |
| `Channel.AddinChannelServer.HandlePong` | src/office-mcp/daemon/src/addin_mgr/addin_channel.rs:197-207 | a pong is one step; no other connection changes |
| `Channel.AddinChannelServer.RecordHeartbeatTimeout` | src/office-mcp/daemon/src/addin_mgr/addin_channel.rs:214-251 | a timeout is one step; the instance is marked only when closing |
| `Channel.AddinChannelServer.AddSession` | src/office-mcp/daemon/src/addin_mgr/addin_session_events.rs:12-67 | adding a session is one step, with its three refusals |
| `Channel.AddinChannelServer.UpdateSession` | src/office-mcp/daemon/src/addin_mgr/addin_session_events.rs:69-95 | an update is one step and touches only its session |
| `Channel.AddinChannelServer.RemoveSession` | src/office-mcp/daemon/src/addin_mgr/addin_session_events.rs:97-132 | removing a session detaches every connection that carried it |
| `Channel.PingIdIsInjective` | src/office-mcp/daemon/src/addin_mgr/addin_channel.rs:263-267 | a ping id is `ping-` and the decimal count; ids of different counts differ |
| `ChannelRuns.PongIsAcceptedExactly` | src/office-mcp/daemon/src/addin_mgr/addin_channel.rs:197-207 | in every run a pong is accepted exactly when it answers the ping its connection awaits |
| `ChannelRuns.PendingPingIsOlder` | src/office-mcp/daemon/src/addin_mgr/addin_channel.rs:174-190 | a pending id is that of an earlier count |
| `ChannelRuns.PingsAreCounted` | src/office-mcp/daemon/src/addin_mgr/addin_channel.rs:174-196 | pings are numbered from one, also those to connections that are not there |
| `ChannelRuns.PendingPingsAreDistinct` | src/office-mcp/daemon/src/addin_mgr/addin_channel.rs:174-190 | pending ids differ across connections |
| `ChannelRuns.TakenPongWasPinged` | src/office-mcp/daemon/src/addin_mgr/addin_heartbeat.rs:10-21 | in every run an accepted pong answers an earlier ping of that connection, with nothing in between |
| `ChannelRuns.PongIsTakenOnce` | src/office-mcp/daemon/src/addin_mgr/addin_channel.rs:197-207 | an id is accepted at most once in a run, on any connection |
| `ChannelRuns.MissCounterIsExact` | src/office-mcp/daemon/src/addin_mgr/addin_heartbeat.rs:14-25 | the counter is min(255, timeouts since registration or the last accepted pong) |
| `ChannelRuns.CloseIsExact` | src/office-mcp/daemon/src/addin_mgr/addin_channel.rs:214-251 | close with 4002 and mark stale exactly from the third miss in a row; otherwise the registry is untouched |
| `Registries.SessionRegistry.RegisterRuntime` | src/office-mcp/daemon/src/addin_mgr/session_registry.rs:41-50 | replacing a runtime first marks its session stale |
| `Registries.SessionRegistry.MarkInstanceStale` | src/office-mcp/daemon/src/addin_mgr/session_registry.rs:98-106 | marks the session the runtime holds, if it is active |
| `Registries.SessionRegistry.AddSession` | src/office-mcp/daemon/src/addin_mgr/session_registry.rs:52-66 | the session is entered as active and held by its runtime, whoever had it before |
| `Registries.SessionRegistry.RemoveSession` | src/office-mcp/daemon/src/addin_mgr/session_registry.rs:76-86 | the session leaves both tables and the runtime that holds it |
| `Registries.SessionRegistry.RemoveRuntime` | src/office-mcp/daemon/src/addin_mgr/session_registry.rs:88-96 | the runtime goes and its session is stale |
| `Registries.SessionRegistry.PruneStaleSessions` | src/office-mcp/daemon/src/addin_mgr/session_registry.rs:120-132 | removing the expired sessions one by one removes them all, in any order |
| `Registries.SessionRegistry.SetConnectionPending` | src/office-mcp/daemon/src/addin_mgr/session_registry.rs:213-219 | a known instance's runtime has that many calls waiting; an unknown one is refused |
| `Registries.SessionRegistry.SetConnectionConnected` | src/office-mcp/daemon/src/addin_mgr/session_registry.rs:221-227 | a known instance's runtime is connected or not as told; an unknown one is refused |
| `Registries.PermitFollowsRuntime` | src/office-mcp/daemon/src/addin_mgr/session_registry.rs:157-227 | a call to an active session for one of its tools is let through exactly while its runtime is connected and has fewer than the limit waiting, and is told how many |
| `Registries.SettingsTouchNothingElse` | src/office-mcp/daemon/src/addin_mgr/session_registry.rs:213-227 | setting a runtime's pending count or connected flag touches no session and no other runtime |
| `ChannelSessions.InStepIsKeptExactly` | src/office-mcp/daemon/src/addin_mgr/addin_channel.rs:69-251 | an event keeps connections, runtimes and sessions in step exactly when it is no takeover, no abandonment and no removal of a shared instance |
| `ChannelSessions.RunsStayInStep` | src/office-mcp/daemon/src/addin_mgr/addin_channel.rs:69-251 | every run without such events stays in step |
| `ChannelSessions.NoPermitAfterClose` | src/office-mcp/daemon/src/addin_mgr/session_registry.rs:157-211 | after a close or removal no tool call is let through to that instance, whatever follows, until a session is added for it |
| `ChannelSessions.PermitsAreHeld` | src/office-mcp/daemon/src/addin_mgr/session_registry.rs:157-211 | a call let through goes to the runtime that holds the session |
| `ChannelSessions.DroppedSessionIsPruned` | src/office-mcp/daemon/src/addin_mgr/session_registry.rs:120-132 | whatever follows, unless it is added again, the session of a removed connection is gone with the first pruning after the grace period and stays gone |
| `ChannelSessions.LateRemovalCutsOffReconnect` | src/office-mcp/daemon/src/addin_mgr/addin_channel.rs:150-168 | removing the old connection of a reconnected instance takes the runtime from the new one |
| `ChannelSessions.TakenSessionFallsWithFormerOwner` | src/office-mcp/daemon/src/addin_mgr/session_registry.rs:52-66 | a session taken over by another instance goes stale with its former owner |
| `ChannelSessions.AbandonedSessionStaysActive` | src/office-mcp/daemon/src/addin_mgr/session_registry.rs:52-66 | a session whose runtime takes another stays active and held by no runtime through every run that neither adds nor removes it |
| `ChannelSessions.OrphanIsLetThroughExactly` | src/office-mcp/daemon/src/addin_mgr/session_registry.rs:157-211 | such a session is let through exactly while its instance has a runtime, and to one that does not hold it; otherwise it is refused as lost |
| `ChannelSessions.AbandonedSessionComesBack` | src/office-mcp/daemon/src/addin_mgr/session_registry.rs:41-66 | lost with the removal of its connection and through a pruning, it is let through again when the instance registers anew |
| `ChannelSessions.SharingIsReachable` | src/office-mcp/daemon/src/addin_mgr/addin_channel.rs:69-98 | two connections of one instance: a concrete run |
| `ChannelSessions.TakeoverIsReachable` | src/office-mcp/daemon/src/addin_mgr/addin_session_events.rs:12-67 | a takeover: a concrete run |
| `ChannelSessions.AbandonmentIsReachable` | src/office-mcp/daemon/src/addin_mgr/addin_session_events.rs:12-67 | an abandonment: a concrete run |
| `SessionLife.LinkedExactly` | src/office-mcp/daemon/src/addin_mgr/addin_channel.rs:69-168 | which events make a connection be there |
| `SessionLife.SpeaksForExactly` | src/office-mcp/daemon/src/addin_mgr/addin_channel.rs:69-104 | a connection speaks for the instance it registered last |
| `SessionLife.CarriesExactly` | src/office-mcp/daemon/src/addin_mgr/addin_session_events.rs:12-114 | a connection carries the session it added last until that is removed by name, or it registers anew or goes |
| `SessionLife.RuntimeExactly` | src/office-mcp/daemon/src/addin_mgr/session_registry.rs:41-96 | an instance has a runtime from its registration to the removal of a connection of it |
| `SessionLife.HoldsExactly` | src/office-mcp/daemon/src/addin_mgr/session_registry.rs:41-132 | a runtime holds the session added last for it until it is replaced or removed, or the session is removed or pruned as its own |
| `SessionLife.KnownExactly` | src/office-mcp/daemon/src/addin_mgr/session_registry.rs:52-132 | a session is known, in both tables, from its addition to its removal by name or the first pruning later than the grace period after it went stale |
| `SessionLife.BelongsExactly` | src/office-mcp/daemon/src/addin_mgr/session_registry.rs:52-66 | it belongs to the instance it was added for last, in both tables |
| `SessionLife.ToolsExactly` | src/office-mcp/daemon/src/addin_mgr/session_registry.rs:52-74 | it offers the tools it was added or updated with last |
| `SessionLife.ActiveExactly` | src/office-mcp/daemon/src/addin_mgr/session_registry.rs:41-118 | it is active from its addition until its holder is replaced, removed or closed for its misses |
| `SessionLife.StaleSinceExactly` | src/office-mcp/daemon/src/addin_mgr/session_registry.rs:108-118 | it is stale since the event that ended its holder |
| `SessionLife.AnswersTell` | src/office-mcp/daemon/src/addin_mgr/addin_channel.rs:69-251 | in every run each answer is given exactly when the event had its effect; a pruning counts the sessions that are gone |
| `SessionLife.RemovedSessionIsGone` | src/office-mcp/daemon/src/addin_mgr/addin_session_events.rs:97-122 | in every run a removed session is in neither table, carried by no connection and held by no runtime but a former owner it was taken from |
| `SessionLife.RemovalTouchesNothingElse` | src/office-mcp/daemon/src/addin_mgr/addin_session_events.rs:97-122 | every other session, and what else runtimes hold and connections carry, stays as it is |
| `SessionLife.RemovedSessionIsRefused` | src/office-mcp/daemon/src/addin_mgr/session_registry.rs:157-170 | whatever follows, until it is added again calls to it are refused as unknown, or as no sessions when there are none |
| `SessionLife.PermitIsDecided` | src/office-mcp/daemon/src/addin_mgr/session_registry.rs:157-211 | in every run, which call is let through, to which runtime, and which refusal comes first |
| `SessionLife.AddedSessionIsLetThrough` | src/office-mcp/daemon/src/addin_mgr/session_registry.rs:157-211 | a session added where no other runtime holds it is let through for exactly its tools, to its own runtime, through every run that touches neither it nor its instance |
| `SessionLife.ToolsAreTheLastOnes` | src/office-mcp/daemon/src/addin_mgr/addin_session_events.rs:12-86 | in every run the tools of a session are those it was added or updated with last |
| `Connection.Taskpane.ConnectNow` | src/office-ctl/word/public/taskpane.js:354-384 | a connect clears both timers, opens a new generation and watches it, or falls back or fails |
| `Connection.Taskpane.OnClose` | src/office-ctl/word/public/taskpane.js:399-410 | a close is one step of the machine |
| `Connection.Taskpane.OnError` | src/office-ctl/word/public/taskpane.js:411-416 | an error is one step of the machine |
| `Connection.Taskpane.OnOpenTimeout` | src/office-ctl/word/public/taskpane.js:382-391 | an open timeout is one step of the machine |
| `Connection.Taskpane.OnOpen` | src/office-ctl/word/public/taskpane.js:392-397 | an open is one step of the machine: the timeout is cleared and the backoff reset |
| `Connection.Taskpane.FireReconnect` | src/office-ctl/word/public/taskpane.js:5194 | a reconnect timer that fires is one step: a connect |
| `Connection.Taskpane.SaveEndpoint` | src/office-ctl/word/public/taskpane.js:5453-5474 | an endpoint that is not valid changes nothing; a valid one is one step: stored at once, its reconnect deferred |
| `Connection.Taskpane.FireSave` | src/office-ctl/word/public/taskpane.js:5463-5468 | the deferred reconnect is one step: a connect |
| `Connection.Taskpane.HandleConnectionFailure` | src/office-ctl/word/public/taskpane.js:365-372 | takes effect once and only for the current generation |
| `Connection.Taskpane.ConfiguredEndpoint` | src/office-ctl/common/addin-channel.js:14-31 | the stored endpoint if it is usable; an unusable one is dropped for the page's own |
| `Connection.Taskpane.TryCurrentOriginEndpointFallback` | src/office-ctl/word/public/taskpane.js:419-430 | falls back exactly when the failed endpoint is not the page's own |
| `Connection.AttemptGoesToStored` | src/office-ctl/word/public/taskpane.js:354-375 | in every run a connect goes to the stored endpoint, trimmed, if that may be used, and otherwise to the page's own, dropping the override |
| `Connection.SavedEndpointIsNext` | src/office-ctl/word/public/taskpane.js:5453-5468 | an endpoint just saved is where the next connect goes, if it is of the page's own origin |
| `Connection.InvalidEndpointIsRefused` | src/office-ctl/word/public/taskpane.js:5453-5472 | one that is not well formed changes nothing, in every run |
| `Connection.OverrideIsCleared` | src/office-ctl/word/public/taskpane.js:419-430 | losing the socket at another endpoint than the page's own clears the override, resets the backoff, leaves a reconnect pending and counts no failure |
| `Connection.OverrideIsTriedOnce` | src/office-ctl/word/public/taskpane.js:419-430 | so until an endpoint is saved again every later attempt of the run goes to the page's own endpoint, where none falls back |
| `Connection.LossIsScheduledExactly` | src/office-ctl/word/public/taskpane.js:365-416 | the first timeout of an attempt, or error or close at the page's own endpoint, is its failure and schedules the next reconnect, later ones change nothing; after an announcement every close schedules one and is no failure |
| `Connection.CreationFailureIsScheduled` | src/office-ctl/word/public/taskpane.js:373-381 | a socket that cannot be created at the page's own endpoint is a failure at once and schedules the next reconnect |
| `Connection.PaneNeverStalls` | src/office-ctl/word/public/taskpane.js:354-417 | in every run a begun attempt is watched by a pending open timeout, a scheduled reconnect is pending, and no failure is left without one |
| `Connection.OpeningResets` | src/office-ctl/word/public/taskpane.js:392-397 | an open of the current socket ends the watch and resets the backoff, nothing else |
| `Connection.DelayAfterOpening` | src/office-ctl/word/public/taskpane.js:5188-5194 | the first delay after it is that of a first attempt, below two seconds |
| `Connection.OpenTimeoutIsCurrent` | src/office-ctl/word/public/taskpane.js:355-391 | in every run at most one open timeout is pending and it watches the current generation |
| `Connection.SupersededEventsChangeNothing` | src/office-ctl/word/public/taskpane.js:393-412 | events of superseded sockets change nothing, and none comes from the future |
| `Connection.FailureIsTimelyAndUnique` | src/office-ctl/word/public/taskpane.js:365-372 | failure handling takes effect only for the current generation and at most once for each |
| `Connection.BackoffGrows` | src/office-ctl/word/public/taskpane.js:5188-5194 | between two resets delays never shrink and grow strictly up to ten seconds, for every jitter |
| `Connection.DelaysAreBounded` | src/office-ctl/common/addin-channel.js:169-171 | delays lie between 1500 and 10000 and are 10000 from the eighteenth attempt on |
| `Connection.DelayIsExactly` | src/office-ctl/common/addin-channel.js:169-171 | short of the cap each of the five hundred parts of the jitter gives its own delay, a millisecond apart |
| `Connection.TidyIsKeptExactly` | src/office-ctl/word/public/taskpane.js:5188-5194 | an event leaves at most one reconnect timer exactly unless it schedules while one is pending |
| `Connection.RunsStayTidyExactly` | src/office-ctl/word/public/taskpane.js:5188-5194 | in every run at most one reconnect timer is pending as long as no event schedules over a pending one, and the first that does leaves two |
| `Connection.ClearIsCompleteExactly` | src/office-ctl/word/public/taskpane.js:354-357 | the clear of a connect leaves no reconnect timer pending exactly if at most one was and its handle is the one kept |
| `Connection.TimerOutlivesClearExactly` | src/office-ctl/word/public/taskpane.js:354-357 | up to the first event that schedules over a pending timer the clear leaves none, and right after it one |
| `Connection.OneTimerBeforeAnnouncement` | src/office-ctl/word/public/taskpane.js:354-417 | before the first announcement on the page's own endpoint at most one reconnect timer is pending |
| `Connection.ErrorThenCloseSetsTwoTimers` | src/office-ctl/word/public/taskpane.js:399-416 | after an announcement an error followed by a close sets two timers |
| `Connection.TwoTimersAreReachable` | src/office-ctl/word/public/taskpane.js:399-416 | from the start: boot, open, announcement, error and close leave two timers |
| `Connection.StrayTimerSupersedesOpenSocket` | src/office-ctl/word/public/taskpane.js:355-357 | the timer no clear reaches supersedes the open socket of the next generation |
| `Connection.StrayTimerIsReachable` | src/office-ctl/word/public/taskpane.js:354-417 | the run continued: a reconnect opens, and the stray timer supersedes it |
| `ColumnLetters.ColumnIndexFromLetters` | src/office-ctl/excel/public/taskpane.js:2188-2194 | the loop computes the column of the letters, whatever their case |
| `ColumnLetters.ColumnOfLetters` | src/office-ctl/excel/public/taskpane.js:2188-2194 | every column has letters that read back to it |
| `ColumnLetters.LettersOfColumn` | src/office-ctl/excel/public/taskpane.js:2188-2194 | non-empty uppercase letters are the letters of the column they name |
| `ColumnLetters.ColumnsAreDistinct` | src/office-ctl/excel/public/taskpane.js:2188-2194 | two non-empty uppercase letter strings name one column exactly when they are equal |
| `ColumnLetters.ColumnsFollowShortlex` | src/office-ctl/excel/public/taskpane.js:2188-2194 | columns are ordered as their letters are, shorter first |
| `ColumnLetters.SheetFrozenState` | src/office-ctl/excel/public/taskpane.js:2176-2186 | the frozen state is what the address says, or the address itself when it is no cell |
| `ColumnLetters.FrozenRoundTrip` | src/office-ctl/excel/public/taskpane.js:2176-2186 | the frozen state of the address of a range is its first row and column |
| `ColumnLetters.FrozenExactly` | src/office-ctl/excel/public/taskpane.js:2176-2186 | for every address: letters and digits, without quotes and dollar signs and before the first colon, give that cell from zero; anything else only the address itself; a sheet name changes nothing |
| `ColumnLetters.BareExactly` | src/office-ctl/excel/public/taskpane.js:2180 | exactly the quotes and dollar signs are dropped |
| `ColumnLetters.CaseIsIgnored` | src/office-ctl/excel/public/taskpane.js:2188-2194 | letters in lower case name the same column |
| `TextReplace.ReplaceIsRewrite` | src/office-ctl/powerpoint/public/taskpane.js:1352-1355 | split and join is leftmost, non-overlapping replacement |
| `TextReplace.UnchangedExactly` | src/office-ctl/powerpoint/public/taskpane.js:1352-1355 | unchanged exactly when nothing matches or the replacement is the search text; the length law |
| `TextReplace.EscapedIsLiteral` | src/office-ctl/powerpoint/public/taskpane.js:1362-1364 | an escaped text is a pattern for exactly itself |
| `TextReplace.LiteralReplacementExactly` | src/office-ctl/powerpoint/public/taskpane.js:1352-1355 | when case is ignored a replacement stands for itself, whatever is matched, exactly when it holds no `$` pattern |
| `TextReplace.PatternStandsFor` | src/office-ctl/powerpoint/public/taskpane.js:1354 | behind any plain text each of the four `$` patterns stands for its own part, and a dollar sign that starts none for itself |
| `TextReplace.FoldedReplace` | src/office-ctl/powerpoint/public/taskpane.js:1352-1355 | up to case, replacing while ignoring case is leftmost replacement in the folded text |
| `TextReplace.MatchesMultiply` | src/office-ctl/powerpoint/public/taskpane.js:1352-1360 | where no match can join a replacement to its surroundings the new text has, per match replaced, the matches the replacement brings in |
| `SlideText.ReplaceText` | src/office-ctl/powerpoint/public/taskpane.js:639-686 | both ways of matching: empty arguments are refused and change nothing, otherwise each range holds its replaced text, the count is taken from the new texts, and the touched ranges are listed in order |
| `SlideText.ChangesExactly` | src/office-ctl/powerpoint/public/taskpane.js:656-657 | a text without a match stays; one with a match changes by more than case, unless the replacement is the search text up to case |
| `SlideText.TouchedExactly` | src/office-ctl/powerpoint/public/taskpane.js:652-667 | the shapes reported as touched are those that held a match, each once and in order |
| `SlideText.CaseChangeIsRightExactly` | src/office-ctl/powerpoint/public/taskpane.js:656-666 | replacing that changes at most the case never reports too many, and the right number exactly when every text with a match is changed |
| `SlideText.ReportIsRightExactly` | src/office-ctl/powerpoint/public/taskpane.js:666 | where no match can join a replacement to its surroundings the reported number is the number of matches exactly when there were none, or the replacement holds the search text once and is not just it, or is just it up to case and every text with a match is changed |
| `SlideText.OneCharacterIsRightExactly` | src/office-ctl/powerpoint/public/taskpane.js:666 | the same for every search text of one character |
| `SlideText.SameTextReportsZero` | src/office-ctl/powerpoint/public/taskpane.js:656-666 | a replacement by the search text itself, case matched, touches and reports nothing |
| `SlideText.ReportsZero` | src/office-ctl/powerpoint/public/taskpane.js:666 | with a replacement sharing no character with the search text the reported number is zero |
| `SlideText.SeamsDecide` | src/office-ctl/powerpoint/public/taskpane.js:666 | where a match can join the two the surrounding text decides: one replacement, right on one text and wrong on another |
| `RequestId.CreateRequestId` | src/office-ctl/common/addin-channel.js:64-73 | stamps the bytes in place and prints them with dashes |
| `RequestId.IdIsVersion4` | src/office-ctl/common/addin-channel.js:68-72 | any sixteen bytes give a well formed version 4 UUID |
| `RequestId.IdTellsBytes` | src/office-ctl/common/addin-channel.js:66-72 | the id reads back as the bytes in order, high digit first, but for the version and variant bits |
| `RequestId.IdsAgreeExactly` | src/office-ctl/common/addin-channel.js:67-72 | two ids are equal exactly when the bytes agree on the 122 free bits |
| `ToolPermissions.Taskpane.HandleToolGroupPermissionChange` | src/office-ctl/excel/public/taskpane.js:3314-3326 | the loop switches exactly the group's offered tools that the mode then allows |
| `ToolPermissions.Taskpane.HandleToolPermissionChange` | src/office-ctl/excel/public/taskpane.js:3305-3312 | a switch sets exactly its own tool |
| `ToolPermissions.Taskpane.HandleToolModeChange` | src/office-ctl/excel/public/taskpane.js:3346-3353 | the mode is the one chosen |
| `ToolPermissions.Taskpane.EffectiveTools` | src/office-ctl/excel/public/taskpane.js:3337-3339 | the effective tools in their order |
| `ToolPermissions.FilteredExactly` | src/office-ctl/excel/public/taskpane.js:3337-3344 | a tool is in that list exactly when it is available, supported, enabled and allowed by the mode |
| `ToolPermissions.FilteredInOrder` | src/office-ctl/excel/public/taskpane.js:3337-3339 | in their order and as often as they are given |
| `ToolPermissions.EffectiveExactly` | src/office-ctl/common/main-ui.js:75-79 | in read mode nothing known to do more than read is effective, in write mode nothing known to destroy; a tool without a switch is on, one without metadata reads |
| `ToolPermissions.ModeIsLeast` | src/office-ctl/excel/public/taskpane.js:3328-3335 | the mode chosen is the least one, at or above the current one, that suffices for the group |
| `ToolPermissions.RaisingKeepsTools` | src/office-ctl/common/main-ui.js:75-79 | a higher mode allows what a lower one does |
| `ToolPermissions.EnablingExactly` | src/office-ctl/excel/public/taskpane.js:3314-3326 | enabling a group makes all it offers effective, takes nothing away, and what else it adds |
| `ToolPermissions.DisablingExactly` | src/office-ctl/excel/public/taskpane.js:3314-3326 | disabling a group leaves none of it effective and changes nothing else |
| `ToolPermissions.DisabledToolsComeBackExactly` | src/office-ctl/excel/public/taskpane.js:3319-3321 | which tools of a disabled group become effective when the mode is raised |

## Left out

- Office.js calls, DOM rendering, markup and logging: paragraphs, hits, lists and tracked changes are inputs.
- Real sockets, timers, storage and clocks: events, pending-timer sets and parameters; the times at which timers fire are not ordered, so every order of events is covered, also those real delays exclude.
- Case folding: one code unit to one code unit, as a parameter; `toLowerCase` mappings that change the length are not covered.
- Heading styles: the level of a paragraph is given, the style pattern that yields it is not modelled.
- Replacement limits that are not integers, and a null `ranges` argument of the hit mapping.
- Ping numbers: unbounded naturals, the wrap-around of the 64-bit counter is not modelled.
- Registration checks of the add-in channel: one oracle beside the test for an empty instance id.
- Document, activity flag and capability fields of sessions, and `describe`: plain data; setting the pending count or the connected flag of a runtime from outside is not an event of the runs.
- Reply functions that throw: reply attempts are counted.
- Start-time refusals of a call beyond disabled, cancelled and one preflight or dispatch error: the per-tool checks are one oracle.
- Sanitizing of recorded errors, and the `createRequestId` path that uses the platform's own UUIDs.
- Excel and PowerPoint connect code (no generation guard), and their invocation loops, which have the shape of Word's.
- SlideText.ReportIsRightExactly: speaks of replacements no match can join to their surroundings (without that `SeamsDecide` shows that no condition on search text, replacement and number of matches alone decides) and, when case is ignored, of replacements without `$` patterns; those are expanded in `SlideText.ReplaceText`, but what they bring in depends on the text around.
- Regular expression flags: ignoring case compares the folds of single code units; the host's canonicalization is the fold.
- Two proxies of the host for one range or shape: the ranges of a call are distinct objects.
- Bulk accept and reject of tracked changes: guarded by a count only.
- Command routing, the connection hub, upgrade checks and everything under `evidence`: wiring and test plumbing.
