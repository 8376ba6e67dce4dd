# Narrative timeline and content tools — a Dafny model

This project models the logic underneath a social-media content tool. In the tool, users
manage "accounts" (brand voices), generate tweets with a language model, and lay out
Instagram-style narrative episodes on an interactive timeline canvas. The model covers:

- **the timeline canvas** (`timeline.dfy`, module `Timeline`). Episodes become node
  discs, and every episode's outgoing connections are flattened into one edge list. The
  hit test is a disc of radius 20 where the first node in list order wins. The component
  state is modelled as a class `Canvas` with `nodes`, `connections`, `dragging`,
  `connecting` and `tooltip`. Its event methods cover pointer down, move and up, plus the
  two persistence handlers: drag end, which rolls the node back on failure, and connect,
  which appends the edge only on success. The rule for which edges are drawn and the
  label truncation are pure functions.
- **the episode library** (`library.dfy`, module `Library`). It collects the distinct
  tags and arc names (a loop that adds to sets, then a sort). It also holds the
  four-part episode filter and the colour lookup for tag chips.
- **the narrative store glue** (`narrative_store.dfy`, module `NarrativeStore`). This
  covers the rows written when an episode is created, and the join that puts tags and
  outgoing connections back onto each episode when they are loaded.
- **the account edit dialog** (`account_editor.dfy`, module `AccountEditor`). A class
  holds the form fields, the example-tweet list and the map from each tweet to its
  analysis. Its methods are the add, remove, change and submit handlers.
- **tweet generation post-processing** (`tweets.dfy`, module `TweetGeneration`). The
  model's answer is split into lines, blank lines are dropped, and at most three are
  kept. Every failure becomes one fixed error message.

Shared pieces live in three more files:
- `records.dfy` (`Records`) holds the episode, connection and row records.
- `text.dfy` (`Text`) holds JavaScript's `trim`, `toLowerCase`, `includes`,
  `split('\n')` and its default string sort order.
- `seqs.dfy` (`Seqs`) holds order-preserving sublists.

Callbacks, the data store and the language model are outside the model. How each call
ends is a parameter:
- `Outcome` for the canvas callbacks (`NoCallback` when the host page supplied none);
- `CreateReplies` and `FetchReplies` for the store;
- `AnalysisReply` for the tweet analysis;
- `Option<string>` for the language model's answer.

Methods that call out return the call they made (`Call`, the list of `Insert` requests,
the requested tweet, the `AccountUpdate` sent).

The canvas code has no zoom, pan, multi-selection, group drag, display modes, context menu
or image nodes. It does not hide archived episodes on the canvas. On drag end it persists
the pointer's release coordinates. On rollback it writes the episode's raw `position_x` /
`position_y` back, not the value the node was seeded with.

## Model

| member | source | states |
|---|---|---|
| `Text.Trim` | src/utils/openai.js:45 | `trim()` yields the empty string exactly when every character is whitespace, and otherwise starts and ends with a non-whitespace character |
| `Text.SplitLines` | src/utils/openai.js:44 | `split('\n')` gives at least one piece, and no piece contains a newline |
| `Text.SplitJoin` | src/utils/openai.js:44 | joining the pieces of `split('\n')` with newlines gives the answer text back |
| `Text.JoinSplit` | src/utils/openai.js:44 | newline-free lines joined with newlines split back into exactly those lines |
| `Text.Lower` | src/components/EpisodeLibrary.js:49-50 | `toLowerCase()` keeps the length and maps each character on its own, ASCII capitals to their small letters and everything else to itself |
| `Text.Contains` | src/components/EpisodeLibrary.js:49-50 | `includes` holds exactly when the needle occurs at some offset of the string |
| `Text.LexLessTotal` | src/components/EpisodeLibrary.js:36-37 | the default sort order on strings is total: of two different strings, one sorts first |
| `Text.LexLessTransitive` | src/components/EpisodeLibrary.js:36-37 | the default sort order on strings is transitive |
| `Timeline.BuildNodes` | src/components/TimelineCanvas.js:13-20 | one fresh, unselected node per episode, each carrying its episode |
| `Timeline.BuildNodesSpec` | src/components/TimelineCanvas.js:13-20 | one node per episode, in order, copying id and title, unselected, at `position_x`/`position_y`, or at 100 when that is null or 0 |
| `Timeline.FoldConnections` | src/components/TimelineCanvas.js:24-29 | the `reduce` only appends: the accumulator is a prefix of the result |
| `Timeline.FoldIsConcat` | src/components/TimelineCanvas.js:24-29 | the `reduce` over the episodes equals concatenating each episode's connections in order |
| `Timeline.FlattenConnectionsSpec` | src/components/TimelineCanvas.js:24-30 | the edge list holds exactly the connections of the episodes; an episode without `connections` contributes nothing |
| `Timeline.FindNode` | src/components/TimelineCanvas.js:138-142 | the hit test returns the first node, in list order, strictly within distance 20 of the point (optionally not the excluded id), or nothing when there is none |
| `Timeline.Hover` | src/components/TimelineCanvas.js:49-64 | the tooltip shows exactly when some node is under the pointer; it then shows the details of the first such node in list order, 30 above its centre; otherwise it is hidden and empty |
| `Timeline.TooltipText` | src/components/TimelineCanvas.js:58 | when no field contains a newline, the text is four lines: the title, the description or a blank, `Tipo: ` with the closure type or `null`, and `Arco: ` with the arc or `N/A` when it is missing or empty |
| `Timeline.SelectOnly` | src/components/TimelineCanvas.js:151-154 | after a click, a node is selected exactly when it carries the clicked id; positions and episodes are kept |
| `Timeline.MoveNode` | src/components/TimelineCanvas.js:40-44 | the dragged node moves to the pointer; every other node is unchanged |
| `Timeline.Rollback` | src/components/TimelineCanvas.js:170-174 | the rolled-back node returns to its episode's persisted coordinates; every other node is unchanged |
| `Timeline.RollbackForgetsMove` | src/components/TimelineCanvas.js:163-177 | a rollback after a drag gives the same nodes as a rollback without it |
| `Timeline.RollbackRestoresSeeded` | src/components/TimelineCanvas.js:16-17 | from freshly seeded nodes, a drag followed by a rollback restores the nodes exactly when the node's persisted coordinates are non-zero numbers |
| `Timeline.BuiltNodesSeeded` | src/components/TimelineCanvas.js:13-20 | freshly built nodes sit at their seeded positions |
| `Timeline.NodeById` | src/components/TimelineCanvas.js:92-93 | the lookup finds the first node carrying the id, or nothing when no node carries it |
| `Timeline.SegmentOf` | src/components/TimelineCanvas.js:94-98 | a drawn edge is a line between the centres of nodes carrying its start and end ids |
| `Timeline.DrawnConnections` | src/components/TimelineCanvas.js:91-100 | no more edges are stroked than are listed, and each stroked edge has both endpoints among the nodes |
| `Timeline.DrawnConnectionsCount` | src/components/TimelineCanvas.js:91-100 | an edge is stroked as many times as it is listed when both endpoints are present, and never otherwise, so duplicate connections are stroked again |
| `Timeline.DrawnConnectionsSublist` | src/components/TimelineCanvas.js:91-100 | the drawn edges are an ordered sublist of the connection list |
| `Timeline.DrawnConnectionsSpec` | src/components/TimelineCanvas.js:91-100 | a connection is drawn exactly when both its `start` and `end` ids are among the current nodes; the drawn edges keep the list's order |
| `Timeline.DrawnOnlyDrawable` | src/components/TimelineCanvas.js:92-94 | the drawn edges are exactly the listed connections whose two endpoints are found |
| `Timeline.Label` | src/components/TimelineCanvas.js:114 | a node's label is the first 8 characters of its title, or the whole title when it is shorter |
| `Timeline.Canvas.constructor` | src/components/TimelineCanvas.js:11-31 | on mount, the nodes and edges are derived from the episodes, with no drag, no connection and a hidden tooltip |
| `Timeline.Canvas.SyncEpisodes` | src/components/TimelineCanvas.js:11-31 | a change of episodes re-derives the nodes and edges |
| `Timeline.Canvas.MouseDown` | src/components/TimelineCanvas.js:132-160 | on a node, Shift with no active connection starts a connection and changes nothing else; otherwise the node is dragged and becomes the only selected node; on empty space nothing changes |
| `Timeline.Canvas.MouseMove` | src/components/TimelineCanvas.js:34-65 | while dragging, the dragged node takes the pointer coordinates and the others are unchanged; otherwise only the tooltip is updated |
| `Timeline.Canvas.HandleConnect` | src/components/TimelineCanvas.js:180-189 | the callback is called when supplied; `{start, end}` is appended at the end of the edge list only when it succeeds |
| `Timeline.Canvas.HandleNodeDragEnd` | src/components/TimelineCanvas.js:163-177 | the callback gets the drop coordinates when supplied; on failure the node is rolled back; on success the positions are untouched |
| `Timeline.Canvas.MouseUp` | src/components/TimelineCanvas.js:191-215 | while connecting, the callback is called only over a node other than the source, the edge is appended only on success, and `connecting` is cleared in every case; otherwise a drag ends, rolled back on failure, and `dragging` is cleared |
| `Timeline.Canvas.Drawn` | src/components/TimelineCanvas.js:91-100 | the edges drawn from the current state are an ordered sublist of `connections`: exactly those with both endpoints present |
| `Library.AddToSet` | src/components/EpisodeLibrary.js:27 | adding to a set keeps it free of duplicates and adds exactly the new element |
| `Library.InsertSorted` | src/components/EpisodeLibrary.js:36 | inserting a new string into a strictly sorted list keeps it strictly sorted and adds exactly that string |
| `Library.SortStrings` | src/components/EpisodeLibrary.js:36-37 | sorting distinct strings gives the same strings, strictly increasing |
| `Library.SortedUnique` | src/components/EpisodeLibrary.js:36-37 | two strictly sorted lists with the same elements are equal, so the sorted lists do not depend on the sort's steps |
| `Library.CollectTagsAndArcs` | src/components/EpisodeLibrary.js:20-38 | `availableTags` is strictly sorted and holds exactly the tags of the episodes; `availableArcs` is strictly sorted and holds exactly their non-empty arc names |
| `Library.MatchesSearch` | src/components/EpisodeLibrary.js:49-50 | the lower-cased term occurs at some offset of the lower-cased title, or of the lower-cased description when there is one |
| `Library.Keep` | src/components/EpisodeLibrary.js:43-64 | an episode passes exactly when it is archived only if archived ones are shown, matches a non-empty search term, carries a non-empty tag filter exactly, and is in a non-empty arc filter's arc; with no filter set, every episode passes |
| `Library.FilterEpisodes` | src/components/EpisodeLibrary.js:41-66 | every listed episode passes the filters, and never more are listed than given |
| `Library.FilterCount` | src/components/EpisodeLibrary.js:41-66 | an episode is listed as often as it occurs when it passes the filters and never otherwise, so filtering removes no duplicates |
| `Library.FilterSpec` | src/components/EpisodeLibrary.js:41-66 | the filtered list is an ordered sublist of the episodes. An episode is kept exactly when: it is archived only if archived episodes are shown; a non-empty term occurs, ignoring case, in its title or description; it carries a non-empty tag filter exactly; its arc equals a non-empty arc filter |
| `Library.NoFiltersKeepsAll` | src/components/EpisodeLibrary.js:41-66 | with no filter set and archived episodes shown, every episode is listed, in order |
| `Library.TagColor` | src/components/EpisodeLibrary.js:75-84 | `personaje`, `lugar`, `evento` and `trama`, in any case, get their fixed colours; any other tag gets `#6b7280` |
| `Library.TagColorIgnoresCase` | src/components/EpisodeLibrary.js:83 | tags that differ only in case get the same colour |
| `Library.TagColorAsWritten` | src/components/EpisodeLibrary.js:76-83 | the object lookup as written answers with an inherited member exactly when the lower-cased tag names a property of `Object.prototype` |
| `Library.TagColorAsWrittenConstructor` | src/components/EpisodeLibrary.js:83 | the tag "Constructor" gets the inherited `constructor` member instead of a colour |
| `Library.TagColorAgrees` | src/components/EpisodeLibrary.js:75-84 | outside the inherited property names, the lookup as written and `TagColor` agree |
| `NarrativeStore.EpisodeRowOf` | src/utils/instagramContent.js:18-25 | the episode row takes the account id, title and description as given, stores `closure` as `closure_type` and `arc` as `arc_name`, and the position as `position_x`/`position_y` |
| `NarrativeStore.TagRowsFor` | src/utils/instagramContent.js:38-41 | one tag row per tag, in order, each carrying the new episode's id |
| `NarrativeStore.ConnectionRows` | src/utils/instagramContent.js:52-55 | one insert row per connection |
| `NarrativeStore.FromRows` | src/utils/instagramContent.js:103-106 | one `{start, end}` per connection row |
| `NarrativeStore.ConnectionRowsRoundTrip` | src/utils/instagramContent.js:52-55 | connections mapped to `from_episode_id`/`to_episode_id` rows and back by the load mapping give the same connections |
| `NarrativeStore.FromRowsRoundTrip` | src/utils/instagramContent.js:103-106 | rows mapped to `{start, end}` and back give the same rows |
| `NarrativeStore.CreateEpisode` | src/utils/instagramContent.js:14-66 | the requests are the episode row, then the tag rows when there are tags, then the connection rows when there are connections and the tag insert did not fail, and nothing else. The run succeeds, with the stored episode and a null error, exactly when every insert it sent succeeded. Otherwise it returns `{episode: null, error}` with the first failing insert's error |
| `NarrativeStore.TagsFor` | src/utils/instagramContent.js:98-100 | at most one tag per row; which tags, and how often, is fixed by `TagsForCount` |
| `NarrativeStore.ConnectionsFor` | src/utils/instagramContent.js:101-106 | every connection joined onto an episode starts at that episode's id |
| `NarrativeStore.Assemble` | src/utils/instagramContent.js:96-107 | one assembled episode per loaded episode |
| `NarrativeStore.AssembleSpec` | src/utils/instagramContent.js:96-107 | the assembled list has the loaded episodes' length and order; every field other than `tags` and `connections` is preserved, and those two hold the joined rows |
| `NarrativeStore.TagsForCount` | src/utils/instagramContent.js:98-100 | an episode gets a tag once for every tag row pairing the two |
| `NarrativeStore.TagsForAppend` | src/utils/instagramContent.js:98-100 | joining tags over concatenated rows concatenates the results, so row order is kept |
| `NarrativeStore.TagRowsRoundTrip` | src/utils/instagramContent.js:38-41 | the tag rows written for an episode load back as its tag list; rows written for another episode load back as nothing |
| `NarrativeStore.ConnectionsForMembership` | src/utils/instagramContent.js:101-106 | a connection is joined onto an episode exactly when it starts there and a row stores it |
| `NarrativeStore.ConnectionsForCount` | src/utils/instagramContent.js:101-106 | a connection is joined onto an episode once for every row storing it when it starts at that episode, and never otherwise, so duplicate rows are kept |
| `NarrativeStore.ConnectionsForAppend` | src/utils/instagramContent.js:101-106 | joining connections over concatenated rows concatenates the results, so the matching rows keep their order |
| `NarrativeStore.ConnectionRowsLoadBack` | src/utils/instagramContent.js:52-55 | connections saved for an episode, all leaving it, load back as the same list |
| `NarrativeStore.GetEpisodes` | src/utils/instagramContent.js:68-114 | when all three reads succeed, the result is `Assemble` of the three replies with a null error; otherwise it is `{episodes: [], error}`, where the error is the first failing read's, in the order episodes, tags, connections |
| `NarrativeStore.LoadedEdgesLeaveTheirEpisode` | src/utils/instagramContent.js:101-106 | on the canvas, every edge of a loaded episode list starts at one of the loaded episodes |
| `AccountEditor.RemoveAt` | src/components/EditAccountModal.js:145 | filtering out index `i` removes exactly that element and keeps the others in order |
| `AccountEditor.AddKeepsCovered` | src/components/EditAccountModal.js:111-115 | adding a tweet with its analysis keeps every listed tweet analysed |
| `AccountEditor.RemoveKeepsCoveredIff` | src/components/EditAccountModal.js:143-150 | deleting a tweet and its analysis keeps every listed tweet analysed exactly when no other copy of that tweet remains listed |
| `AccountEditor.CoveredListPassesSubmit` | src/components/EditAccountModal.js:30-32 | while every listed tweet is analysed, a non-empty list passes the submit check |
| `AccountEditor.EditAccountForm.constructor` | src/components/EditAccountModal.js:8-16 | the tweets start as `account.example_tweets` or empty, and the analyses as `account.tweet_analyses` or empty |
| `AccountEditor.EditAccountForm.HandleChange` | src/components/EditAccountModal.js:18-24 | only the named form field changes |
| `AccountEditor.EditAccountForm.SetCurrentTweet` | src/components/EditAccountModal.js:98 | typing replaces the tweet input |
| `AccountEditor.EditAccountForm.AddTweet` | src/components/EditAccountModal.js:105-122 | blank input changes nothing. Otherwise, on success the trimmed tweet is appended, its analysis is stored under exactly that key with the other keys unchanged, and the input is cleared. On failure, the list and map are unchanged and an error message is set |
| `AccountEditor.EditAccountForm.RemoveTweet` | src/components/EditAccountModal.js:143-151 | exactly the element at the index is removed, the others keep their order, and the removed tweet's key leaves the analyses map |
| `AccountEditor.EditAccountForm.Submit` | src/components/EditAccountModal.js:26-56 | with an empty analyses map, the submit fails with "You must have at least one example tweet" and nothing is sent; otherwise the form, tweets and analyses are sent, and the message reports the store's answer |
| `TweetGeneration.NonBlank` | src/utils/openai.js:45 | filtering keeps only lines whose trim is non-empty, and only lines of the input |
| `TweetGeneration.NonBlankSublist` | src/utils/openai.js:45 | the kept lines are an ordered sublist of the lines |
| `TweetGeneration.NonBlankSpec` | src/utils/openai.js:45 | a string is kept exactly when it is one of the lines and not entirely whitespace |
| `TweetGeneration.NonBlankCount` | src/utils/openai.js:45 | a non-blank line is kept as often as it occurs and a blank one never, so repeated lines are not merged |
| `TweetGeneration.ExtractTweets` | src/utils/openai.js:43-46 | at most 3 tweets; each has non-empty trimmed content and contains no newline |
| `TweetGeneration.ExtractTweetsSpec` | src/utils/openai.js:43-46 | the tweets are the first up-to-3 non-blank lines, in order; there are 3 unless fewer non-blank lines exist; each is an entire line of the answer, not itself trimmed |
| `TweetGeneration.GenerateTweets` | src/utils/openai.js:43-51 | every failure is rethrown with the fixed message "No se pudieron generar los tweets. Por favor, intenta de nuevo."; an answer yields exactly `ExtractTweets` of its text: at most three tweets, none blank and none containing a newline |

## Left out

- Canvas rendering is left out: clearing, stroke styles, fill colours, fonts, the animation-frame loop and the resize listener. It is graphics and browser plumbing. Only the rules for which edges are drawn, where, and the label text are kept.
- The DOM parts of the canvas are left out: the tooltip's screen position, the instructions panel and `getBoundingClientRect`. Pointer coordinates are taken as already relative to the canvas.
- Coordinates are integers. The hit test compares squared distances (`dx*dx + dy*dy < 400`) instead of calling `Math.sqrt` on floating-point values.
- `dragging` and `connecting` are `Option`s. An id that JavaScript treats as false (an empty string or 0) would read as "none" in the source. The model assumes ids are never falsy.
- A `null` coordinate written back by the rollback is modelled as 0, because that is the number JavaScript uses for `null` in arithmetic and drawing.
- The persistence callbacks are modelled as completing before the next event. In-flight calls overlapping later pointer events are not modelled, and neither are `console.error` logs.
- The `analyzing` flag of the edit dialog is left out. It is true only while the analysis call is in flight, which the model does not interleave.
- The dialog's close timer, `onSuccess`/`onClose`, and the `supabase` update itself are left out. Only the update's payload and the store's answer are modelled.
- `analizarTweet` and the `openai` client call are not part of this model. Their results are inputs.
- The prompt text built in `generarTweetsAutomaticos` is left out.
- The timestamps (`new Date().toISOString()`) and the store's `select`/`eq`/`in`/`order` queries are left out. Their replies are inputs, and the join filters by id itself.
- `createSimplePost`, `getSimplePosts` and `generarIdeas` are left out. They are plain store calls, or empty.
- Text.Lower: maps ASCII letters only, not JavaScript's full Unicode case mapping.
- Timeline.Label: counts characters, where `substring(0, 8)` counts UTF-16 code units. A title of five emoji (ten code units) is cut to four emoji by the canvas but kept whole by the model. Cutting inside a surrogate pair leaves a lone surrogate, which a Dafny `char` cannot hold.
- Text.LexLess: compares characters, not UTF-16 code units. The two differ only for characters outside the Basic Multilingual Plane.
- `Library.SortStrings` is the sort of `Array.from(set).sort()` on a sequence, not in place. `Library.SortedUnique` shows that the result does not depend on the algorithm.
- The episode library panel's control setters (search term, tag, arc and the archived toggle) and its drag-and-drop `dataTransfer` serialisation are left out. They are browser plumbing.
- The other screens (authentication, account list and forms, content history, theme switcher, prompt generator, layout and pages) are not part of this model.

## Findings

| source | as written | input that shows it | evidently intended | confidence | as-written member | corrected member |
|---|---|---|---|---|---|---|
| src/components/EpisodeLibrary.js:76-83 | `tagColors[tag.toLowerCase()] \|\| '#6b7280'` reads a plain object literal, so keys inherited from `Object.prototype` also answer, with a truthy non-colour value | tag `"Constructor"` (or `"__proto__"`) yields the `Object` constructor (or `Object.prototype`) instead of a colour | every tag that is not one of the four named kinds gets `#6b7280` | high, not executed | `Library.TagColorAsWritten`, `Library.TagColorAsWrittenConstructor` | `Library.TagColor` |
