# taskpilot morning briefing, modelled in Dafny

taskpilot is a task manager. Tasks sit in four priority tiers: `one-thing`, `supporting`,
`if-time` and `backlog`. Its "morning briefing" is a short chat with a language model that
ends when the user has chosen today's ONE Thing. The model closes that conversation with a
fixed text block:

    [ONE_THING_SELECTED]
    task: <title>
    goal: <goal>
    [/ONE_THING_SELECTED]

The client parses the block. It looks the title up among the tasks, ignoring case. It then
calls a server action that moves the chosen task into the `one-thing` tier and records the
choice in today's daily review.

This project models that core and proves properties about it:

- `marker_parse.dfy` models the block parser. It follows the JavaScript regular-expression
  engine's search order literally: the leftmost start wins, greedy `\s*` takes the longest
  run first, and lazy groups grow one character at a time.
- `marker_clean.dfy` models the display cleaner, a greedy global replace followed by a trim.
- `briefing_route.dfy` models the endpoint: the system prompt's task section and marker
  block, request validation with its error responses, and the loop that relays text deltas.
  The language-model service is a parameter: the events it streams, and whether iterating
  them fails.
- `briefing_session.dfy` models the `useBriefing` hook as a class. Its fields are the
  transcript and the three state flags. The streamed reply is a parameter: decoded chunks,
  and whether the stream ended normally.
- `briefing_modal.dfy` models the modal as a class: the input field, the submit guard,
  close-then-reset, the auto-start effect, and the display conditions.
- `task_store.dfy` models the task table and the daily-review table as a class. Its
  methods are the server actions. The task table is a sequence of rows in insertion order.
  The review table is a map from a day key to the review.
- `text.dfy` holds JavaScript's white space (`\s`, `trim`), `toLowerCase` restricted to
  ASCII, and `join`/`split`.
- `task_types.dfy` holds the shared task and message types.
- `wrappers.dfy` holds `Option` and `Outcome`.

Two behaviours of the code are worth noting:

- Failures while the upstream stream is being iterated do not become an HTTP 500. The
  response is already returned at that point. The relayed stream ends errored after the
  text relayed so far (`Response.TextStream` with `closed == false`). Only failures while
  reading the body or setting up the stream give the 500.
- `completeBriefing` is not atomic. The demotion of the old `one-thing` tasks is written
  first. If the promotion then fails because no row has the id, the demotion stays and no
  review is written.

## Model

| member | source | states |
|---|---|---|
| TaskTypes.TierName | src/features/tasks/types.ts:1 | the JSON name of a tier is `one-thing` exactly for the one-thing tier |
| TaskTypes.TierNameInjective | src/features/tasks/types.ts:1 | distinct tiers travel as distinct strings |
| Text.Trim | src/features/ai/hooks/use-briefing.ts:22-25 | `trim` returns a slice of the input with no white space at either end, removing only white space; it is empty exactly for all-space input and the identity on trimmed input |
| MarkerParse.MatchAtSound | src/features/ai/hooks/use-briefing.ts:18-20 | a match found at a start position starts there and is a full match of the pattern: opening marker, `task:`, non-empty title group, `goal:`, non-empty goal group, closing marker, separated only by white space |
| MarkerParse.MatchFromSound | src/features/ai/hooks/use-briefing.ts:18-20 | the search returns the match at the leftmost start with one; no earlier position matches; `None` means no position matches |
| MarkerParse.Parse | src/features/ai/hooks/use-briefing.ts:17-28 | a result is the trimmed pair of groups of some match, so both fields are trimmed; `None` is returned instead of an exception, and only when the engine finds no match at any start position |
| MarkerParse.MatchAtComplete | src/features/ai/hooks/use-briefing.ts:18-20 | wherever the pattern matches, the backtracking engine finds a match at that start position: each greedy star, given back one character at a time, and each lazy group, grown one character at a time, reach the match's positions |
| MarkerParse.ParseComplete | src/features/ai/hooks/use-briefing.ts:17-28 | the parser returns a selection exactly when some match of the pattern exists in the text, so `null` means the pattern does not occur |
| MarkerParse.ParseNeedsMarkers | src/features/ai/hooks/use-briefing.ts:17-28 | with no opening marker followed by a closing marker, the parser returns null |
| MarkerParse.ParseBlock | src/features/ai/hooks/use-briefing.ts:19-26 | round trip: a prefix without an opening marker, then the block with a trimmed non-empty title without `goal:` and a trimmed non-empty goal without the closing marker, parses to exactly that title and goal |
| MarkerClean.LastClose | src/features/ai/components/briefing-modal.tsx:54 | a position the greedy `[\s\S]*` settles on holds a closing marker, within the range tried |
| MarkerClean.LastCloseSound | src/features/ai/components/briefing-modal.tsx:54 | the greedy `[\s\S]*` settles on the last closing marker in range, and fails only when the range holds none |
| MarkerClean.LastCloseAt | src/features/ai/components/briefing-modal.tsx:54 | a closing marker with none after it in range is the one the greedy search settles on |
| MarkerClean.BlockAtSound | src/features/ai/components/briefing-modal.tsx:54 | a match at a position ends with the last closing marker of the text; there is none when no opening marker stands there or no closing marker follows it |
| MarkerClean.FirstBlockSound | src/features/ai/components/briefing-modal.tsx:54 | the match starts at the first opening marker that has a closing marker after it and ends with the last closing marker |
| MarkerClean.FirstBlockNone | src/features/ai/components/briefing-modal.tsx:54 | `None` means no opening marker is followed by a closing marker |
| MarkerClean.Clean | src/features/ai/components/briefing-modal.tsx:53-55 | `cleanMessage` output has no white space at either end |
| MarkerClean.RemovesOneBlock | src/features/ai/components/briefing-modal.tsx:54 | the global replace removes one span, from the first matching opening marker through the last closing marker; with no match the text is unchanged |
| MarkerClean.FirstBlockIffMarkers | src/features/ai/components/briefing-modal.tsx:54 | the pattern matches exactly when an opening marker has a closing marker after it |
| MarkerClean.CleanOnlyTrims | src/features/ai/components/briefing-modal.tsx:54 | without an opening marker followed by a closing marker, cleaning only trims |
| MarkerClean.CleanCutsOuterBlock | src/features/ai/components/briefing-modal.tsx:54 | with the first opening marker at `i` and the last closing marker at `j`, cleaning cuts from `i` through the end of the closing marker at `j`, then trims |
| MarkerClean.CutOuterBlock | src/features/ai/components/briefing-modal.tsx:54 | with the first opening marker at `i` and the last closing marker at `j`, the match spans exactly `i` through the end of that closing marker and the replace removes that span and nothing else |
| MarkerClean.CleanHidesMarkers | src/features/ai/components/briefing-modal.tsx:53-55 | cleaned text never holds an opening marker followed by a closing marker |
| MarkerClean.CleanBlockReply | src/features/ai/components/briefing-modal.tsx:53-55 | a reply made of a prefix without an opening marker and a block displays as the trimmed prefix |
| MarkerClean.BlockReply | src/features/ai/components/briefing-modal.tsx:53-55 | a reply ending in a well-formed block both displays as its trimmed prefix and parses to the block's title and goal |
| BriefingModal.StreamedReplyExample | src/features/ai/components/briefing-modal.tsx:106 | a reply streamed in three chunks, `Pick `, `item ` and `A.` followed by a block, once joined as the hook joins chunks, displays as `Pick item A.` and parses to `Write report` / `ship the Q3 summary` |
| BriefingRoute.Candidates | src/app/api/briefing/route.ts:17-18 | the listed tasks are exactly the input tasks whose tier is not `one-thing` |
| BriefingRoute.CandidatesAppend | src/app/api/briefing/route.ts:18 | the filter keeps input order: it distributes over concatenation |
| BriefingRoute.TaskSection | src/app/api/briefing/route.ts:31 | the section is `(No tasks yet)` exactly when no task survives the filter, and the joined list otherwise |
| BriefingRoute.SystemPrompt | src/app/api/briefing/route.ts:30-45 | the modelled prompt, the task section followed by the block, ends with the four-line marker block verbatim; in the source only the closing sentence about concise replies follows the block |
| BriefingRoute.TaskSectionLines | src/app/api/briefing/route.ts:17-20 | split on line breaks, the section is exactly `- ` + title per remaining task, in input order, with no trailing line break (titles without line breaks) |
| BriefingRoute.PromptBlockParses | src/app/api/briefing/route.ts:39-43 | the parser accepts the prompt's block shape: with no `[` in any title, the prompt parses to the block's two hints |
| BriefingRoute.HintsWellFormed | src/app/api/briefing/route.ts:41-42 | the block's two hints meet the round trip's conditions |
| BriefingRoute.DeltaTexts | src/app/api/briefing/route.ts:75-82 | the relay emits at most one chunk per event |
| BriefingRoute.DeltaTextsAppend | src/app/api/briefing/route.ts:75-82 | the relayed texts of a stream are those of its parts, in order |
| BriefingRoute.DeltaTextsMembers | src/app/api/briefing/route.ts:76-80 | a text is relayed exactly when some `content_block_delta` event carries it as text; every other event is dropped |
| BriefingRoute.Relay | src/app/api/briefing/route.ts:75-82 | the stream's loop enqueues exactly the texts of the text deltas, in order |
| BriefingRoute.Post | src/app/api/briefing/route.ts:48-100 | an unreadable body gives 500; a missing or empty task list gives 400 `No tasks provided` with no request upstream; a setup failure gives 500 `Failed to process briefing`; otherwise the upstream gets the prompt and the messages, and the response streams exactly the text deltas in order, closed unless iteration failed |
| TaskStore.DayKey | src/features/ai/actions.ts:7-8 | the day key is a midnight, at most `now`, less than a day before it |
| TaskStore.SameDayKey | src/features/ai/actions.ts:39-44 | two timestamps get the same key exactly when they fall on the same day |
| TaskStore.NormalDescription | src/features/tasks/actions.ts:29 | the stored description is absent exactly when missing or all white space; otherwise it is the input trimmed, which is non-empty |
| TaskStore.NewTask | src/features/tasks/actions.ts:22-32 | no row exactly when the title is missing or blank; otherwise the title is the input title trimmed, which is non-empty, the tier is `backlog`, the task is open, and the description is normalised |
| TaskStore.Toggled | src/features/tasks/actions.ts:44-47 | toggling keeps the table's length |
| TaskStore.ToggledFrame | src/features/tasks/actions.ts:44-47 | toggling flips `completed` of the rows with that id only, and no other field |
| TaskStore.ToggleTwice | src/features/tasks/actions.ts:46 | toggling twice restores the table |
| TaskStore.WithoutSound | src/features/tasks/actions.ts:53 | delete keeps exactly the rows with another id; an absent id leaves the table unchanged |
| TaskStore.WithoutDistinct | src/features/tasks/actions.ts:53 | delete keeps ids distinct |
| TaskStore.WithoutCount | src/features/tasks/actions.ts:53 | with distinct ids, deleting a present id removes exactly one row |
| TaskStore.InsertSound | src/features/tasks/actions.ts:9 | inserting into an ordered listing keeps it ordered and adds exactly that row |
| TaskStore.ListingSound | src/features/tasks/actions.ts:8-10 | open tasks before completed ones, newer `createdAt` first within each group, and a permutation of the rows |
| TaskStore.DemotedHasNoOneThing | src/features/ai/actions.ts:11-14 | after the demotion no task is in the `one-thing` tier |
| TaskStore.ChosenIsTheOneThing | src/features/ai/actions.ts:11-19 | after demote and promote, the chosen id is the only `one-thing` id; former `one-thing` tasks are `supporting`; other rows are unchanged; only tiers change |
| TaskStore.ReviewUpsert | src/features/ai/actions.ts:22-33 | today's review is created or overwritten with the task and goal; other days' reviews are unchanged; nothing is written when the promotion failed |
| TaskStore.Database.GetTasks | src/features/tasks/actions.ts:7-16 | `getTasks` returns every row unaltered, in the listing order |
| TaskStore.Database.CreateTask | src/features/tasks/actions.ts:18-35 | a blank title raises `Title is required` and adds nothing; otherwise exactly the normalised row is appended; ids stay distinct |
| TaskStore.Database.ToggleTaskComplete | src/features/tasks/actions.ts:37-50 | an unknown id raises `Task not found` and changes nothing; otherwise the table becomes the toggled table |
| TaskStore.Database.DeleteTask | src/features/tasks/actions.ts:52-55 | an unknown id raises and changes nothing; otherwise exactly that row is removed |
| TaskStore.Database.TodaysBriefing | src/features/ai/actions.ts:38-45 | a review is returned exactly when one is stored under today's key, and it is the stored review |
| TaskStore.Database.CompleteBriefing | src/features/ai/actions.ts:6-36 | the tables become the demoted-then-promoted table and the upserted reviews; an unknown id raises with the demotion kept and no review; after success, reading on the same day returns the task and goal |
| BriefingSession.ConcatAppend | src/features/ai/hooks/use-briefing.ts:63 | accumulating chunks in two runs gives the same text as in one |
| BriefingSession.Refs | src/features/ai/hooks/use-briefing.ts:48 | one posted entry per task |
| BriefingSession.RefsCandidates | src/features/ai/hooks/use-briefing.ts:48 | the prompt will list the posted tasks outside the `one-thing` tier |
| BriefingSession.FindByTitle | src/features/ai/hooks/use-briefing.ts:70 | the first task whose title equals the given title ignoring case; `None` when no title matches |
| BriefingSession.Resolve | src/features/ai/hooks/use-briefing.ts:67-76 | a choice exactly when the parser matches and a title matches; the task chosen is the first whose title matches the parsed title ignoring case, and the choice carries the parsed goal |
| BriefingSession.ResolveBlock | src/features/ai/hooks/use-briefing.ts:120-129 | a reply ending with a well-formed block naming task `k`, ignoring case and with no earlier match, completes with task `k` and the block's goal |
| BriefingSession.Transcript | src/features/ai/hooks/use-briefing.ts:117 | during a turn the transcript is the prior messages, then one assistant message once a chunk has arrived |
| BriefingSession.Briefing.constructor | src/features/ai/hooks/use-briefing.ts:31-34 | a fresh session: empty transcript, flags false, nothing selected |
| BriefingSession.Briefing.Reset | src/features/ai/hooks/use-briefing.ts:139-144 | `reset` sets the transcript to empty, both flags to false and the selection to none, whatever came before, so two resets equal one |
| BriefingSession.Briefing.Stream | src/features/ai/hooks/use-briefing.ts:110-118 | the read loop's text is the in-order concatenation of the chunks, and the transcript is the prior messages plus one assistant message holding it |
| BriefingSession.Briefing.Complete | src/features/ai/hooks/use-briefing.ts:120-129 | complete and selected only when the reply resolves to a task; then `completeBriefing` runs with its id and goal; it raises when the id is not in the table |
| BriefingSession.Briefing.StartBriefing | src/features/ai/hooks/use-briefing.ts:36-85 | posts `Start my morning briefing.` with the tasks; loading ends false; a failed request or stream replaces the transcript with the apology; otherwise the transcript is one assistant message; completion and the store writes follow the resolved choice, and a failed server action also shows the apology |
| BriefingSession.Briefing.SendMessage | src/features/ai/hooks/use-briefing.ts:87-137 | a no-op with no request while loading or complete; otherwise it posts the transcript plus the user message; loading ends false; the transcript keeps the user message and the streamed reply on failure too; completion and the store writes follow the resolved choice |
| BriefingModal.Shown | src/features/ai/components/briefing-modal.tsx:106 | a displayed message is trimmed and holds no opening marker followed by a closing marker |
| BriefingModal.Modal.constructor | src/features/ai/components/briefing-modal.tsx:15 | the input starts empty |
| BriefingModal.Modal.TypingUntilFirstChunk | src/features/ai/components/briefing-modal.tsx:111-121 | while the first reply of an open, loading session streams in, the typing indicator shows exactly until its first chunk arrives |
| BriefingModal.Modal.SuccessReplacesForm | src/features/ai/components/briefing-modal.tsx:124-139 | in an open modal, the success notice shows exactly when the input form is hidden |
| BriefingModal.Modal.AutoStart | src/features/ai/components/briefing-modal.tsx:22-26 | a briefing is started exactly when the modal is open and the transcript is empty; otherwise nothing changes |
| BriefingModal.Modal.HandleSubmit | src/features/ai/components/briefing-modal.tsx:38-43 | nothing happens when the trimmed input is empty or the session is loading; otherwise `sendMessage` runs once with the trimmed input and the field is cleared |
| BriefingModal.Modal.HandleClose | src/features/ai/components/briefing-modal.tsx:45-48 | the session is reset before the page is told to close the modal |

## Left out

- Transport: `fetch`, the response reader and `TextDecoder` are not modelled. A reply is a sequence of already-decoded chunks plus a flag saying whether it ended normally. A refused request or a non-OK status is one `Refused` outcome.
- Anthropic SDK: the client, the model name, `max_tokens` and the `ReadableStream`/`TextEncoder` plumbing are not modelled. Only the event filter and whether iteration fails are kept.
- BriefingRoute.SystemPrompt: only the task section, its heading and the marker block are modelled. The prose about the role, the conversation flow and the closing sentence is not.
- BriefingRoute.Post: the JSON shape of `messages` is not validated. A body with `tasks` but no `messages` fails at setup with a 500, as the code does when it maps over an undefined list.
- Text.Lower: `toLowerCase` covers ASCII letters only, so `BriefingSession.FindByTitle` ignores non-ASCII case differences that JavaScript would fold.
- Text.IsSpace: the white-space set is the ECMAScript one at the code-point level. Surrogate pairs and characters outside the Basic Multilingual Plane are not treated specially.
- TaskStore.DayKey: days are fixed 86,400,000 ms periods of a millisecond timestamp. The server's time zone and daylight-saving shifts in `setHours(0, 0, 0, 0)` are not modelled.
- TaskStore.Database.CreateTask: the database generates the id and `createdAt`. Here they are parameters, and the id must not already be in the table.
- TaskStore.Listing: rows equal in both sort keys come out in some fixed order. The database promises no order for them.
- Task fields: `updatedAt`, `dueDate` and `estimatedMinutes` are not modelled, since no modelled operation reads or writes them. The other columns of the daily review and the foreign keys are not modelled either.
- TaskStore.Database.DeleteTask: the error text for a missing row is the database client's, not the repository's. The model uses a fixed string.
- `revalidatePath` and `console.error` are not modelled, since they have no effect on the modelled state.
- React scheduling: each hook and modal operation is one atomic step. Not modelled:
  - batched state updates;
  - stale `useCallback` closures;
  - a `reset` while a reply is still streaming, where late chunks rewrite the transcript;
  - the `tasks` prop changing during a session.
- Focus, scrolling, the typing indicator's markup and the other view components are not modelled. `updateTaskTier` is not part of this model, since it is not defined in `src/features/tasks/actions.ts`.
