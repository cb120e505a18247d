# Prompt-queue controller for a chat page, in Dafny

This project models a browser user script that queues chat prompts for a
chat agent. While the agent is busy answering, pressing Enter in the chat
input box does not send the message. The controller takes the box's lines
into an in-memory queue and empties the box. Once the agent is idle, the
controller writes the next queued message into the box and submits it.

Two versions of the script are modelled:

- `script.user.js`, the current version (module `Dispatcher`). It delivers
  in first-in-first-out order. It keeps a single-flight dispatch lock. It
  also protects text the user was typing when a dispatch fires: that draft
  is parked in the queue as an `isDraft` item and put back into the box
  within the same dispatch attempt.
- `script.js`, the older version (module `LegacyDispatcher`). It delivers
  the newest item first. It has no lock and no draft protection. It submits
  through a single delayed timer, cancelling the timer it armed before.

The modules are:

- `Text`: whitespace trimming as ECMAScript's `trim` does it, the
  blank-input test `hasContent`, joining and splitting on `\r?\n`,
  no-break-space stripping, and the queue-row summary.
- `Editor`: the input box. `escapeHtml` and the paragraph markup of
  `linesToEditor` are modelled. So is the browser's side of assigning that
  markup to `innerHTML`. The HTML parser turns CR LF and lone CR into LF
  and ignores NUL characters in text (`ParserText`). A reader then gives
  each paragraph's `textContent` (`ParagraphTexts`). The module also holds
  the box's state as a `Surface`, and `editorToLines`.
- `Store`: queue items, the stored record and both loaders, and the pure
  sequence functions the queue operations use: `splice(i, 1)` for any
  index, `findIndex`, removal by id, and the draft filter. `push`, `shift`
  and `pop` are the controllers' own methods (`Enqueue`, `Dequeue`,
  `AddToQueue`, `PopLatest`).
- `Keys`: the keydown event and the plain-Enter test both handlers use.
- `Dispatcher`: the controller of `script.user.js` as a class.
  - `trySendNext` is an async function. Each of its `await`s is a boundary
    between two step methods: `TrySendNext`, `Submit`, `AfterBusyWait` and
    `AfterIdleWait`.
  - The `phase` field records where the attempt is suspended.
  - The class invariant `Valid()` holds between any two steps. It says:
    - the lock is held exactly while an attempt is in flight;
    - a draft record exists only between capture and restore;
    - every draft item in the queue is the tracked draft, and at most one
      item carries its id.
  - Environment actions can run between the steps: the agent turning busy
    or idle, the user typing, pressing a key, or clicking Clear, Edit or
    Remove.
- `LegacyDispatcher`: the controller of `script.js` as a class. Its
  delayed-submit timers are a set of pending handles.

The script reads the box's contents through the DOM. Here the box is a
value of type `Surface`: a list of paragraph texts, or plain text when
the box holds no paragraph. `Written(lines)` is the box after
`linesToEditor(lines)`. `ReadLines` is `editorToLines`. The busy signal,
the presence of the box and the clock are fields or parameters that the
environment sets. The `sent` fields are ghost: they record each
submission so that contracts can speak of what was delivered.

Two behaviours of `script.user.js` follow from the proofs.

- When the agent does not turn busy, the item already taken off the queue
  is not put back (script.user.js:428-432). Dispatcher.Controller.UndisturbedAttempt
  states `queue == old(queue)[1..]` for both outcomes.
- An Edit click (script.user.js:236-243) loses the edited item when it
  comes while an attempt that captured a draft waits for busy
  (script.user.js:427). Edit takes the
  item out of the queue and into the box. The draft restore that follows
  (script.user.js:429 or 435) writes the captured lines over it.
  Dispatcher.Controller.AttemptWithEdit and
  Dispatcher.EditDuringAttemptScenario prove this: the item ends in neither
  the queue, the box nor the submissions.

## Model

| member | source | states |
|---|---|---|
| Text.TrimEmptyIff | script.user.js:378 | a line trims to the empty string exactly when every character of it is ECMAScript whitespace |
| Text.HasContentIff | script.user.js:377-379 | `hasContent` holds exactly when some line has a non-whitespace character; no lines, or all-blank lines, have no content |
| Text.SplitLinesShape | script.user.js:276-277 | splitting the plain text on `\r?\n` gives at least one line and no line holds a newline |
| Text.SplitJoinRoundTrip | script.user.js:276-277 | splitting lines joined with `\n` gives back the same lines, when there is at least one line, none holds a newline and none but the last ends in `\r` |
| Text.StripNbspSpec | script.user.js:279 | removing no-break spaces from a paragraph's text leaves none, keeps a text that has none unchanged, and never lengthens it |
| Text.StripEachSpec | script.user.js:279 | stripping every paragraph leaves no no-break space in any line and is the identity on lines without one |
| Text.StripEach | script.user.js:279 | the paragraph map keeps one line per paragraph |
| Text.SliceTo | script.user.js:198 | `slice(0, end)` gives at most the whole string |
| Text.SummarizeSpec | script.user.js:196-199 | a joined text of at most maxLen characters is shown whole; a longer one shows its first maxLen-1 characters followed by the ellipsis literal; the summary has at most maxLen-1 plus the literal's length characters |
| Text.SummaryFits | script.js:148-151 | with the one-character ellipsis, the summary never exceeds maxLen, and is the text itself or a maxLen-long summary starting with the text's first maxLen-1 characters |
| Text.UserScriptSummary | script.user.js:196-199 | with the default maxLen of 180 and the three-character literal, a summary has at most 182 characters, and exactly 182 whenever the text is cut |
| Text.LegacyScriptSummary | script.js:148-151 | with the default maxLen of 180, a summary never exceeds 180 characters |
| Editor.EscapeHtmlNoTags | script.user.js:282-284 | escaped text holds no `<` or `>`, so a line cannot open or close an element, and escaping never shortens it |
| Editor.EscapeOneChar | script.user.js:282-284 | the three chained replacements map a single character to its entity (`&amp;`, `&lt;`, `&gt;`) or leave it as it is; an `&` is not escaped twice |
| Editor.EscapeHtmlCons | script.user.js:282-284 | escaping a string is escaping its first character on its own followed by escaping the rest, so the chained replacements act character by character |
| Editor.UnescapeEscape | script.js:209-214 | decoding the three entities undoes `escapeHtml` on every string |
| Editor.ParagraphsRoundTrip | script.user.js:286-289 | reading the paragraph markup built from the lines, before the parser's text preprocessing, gives back the lines themselves, an empty line giving one empty paragraph |
| Editor.LinesToHtmlRoundTrip | script.user.js:286-290 | the markup `linesToEditor` assigns reads as one paragraph per line with that line's text, and as one empty paragraph for no lines |
| Editor.ParserTextStable | script.user.js:290 | text with no CR and no NUL goes through the parser's preprocessing unchanged |
| Editor.MarkupParsesUnchanged | script.user.js:286-289 | the markup built from lines without CR or NUL holds neither, since `escapeHtml` adds only entity characters |
| Editor.WrittenStable | script.user.js:286-290 | for lines without CR or NUL, the box after `linesToEditor` holds exactly the paragraphs of the markup as built |
| Editor.CarriageReturnNormalised | script.user.js:286-290 | a line holding a lone CR does not come back as written: the parser turns it into a line feed |
| Editor.ReadLinesShape | script.user.js:273-280 | `editorToLines` always gives at least one line; lines read from paragraphs hold no no-break space |
| Editor.ReadWritten | script.js:200-225 | for lines without CR or NUL, reading the box after writing them gives the lines less their no-break spaces (`[""]` for no lines), and exactly the lines when they hold none |
| Editor.ResetIsBlank | script.user.js:456-459 | the reset `linesToEditor([""])` reads back as one empty line, which has no content |
| Store.WithoutDraftsMembers | script.user.js:44-45 | the draft filter keeps exactly the non-draft items, leaving no draft |
| Store.WithoutDraftsAppend | script.user.js:44-45 | the filter distributes over concatenation, so kept items stay in their stored order |
| Store.WithoutDraftsNoop | script.user.js:44-45 | a stored array without drafts is loaded unchanged |
| Store.LoadQueueSpec | script.user.js:40-50 | a missing, unparsable or non-array record loads as the empty queue; an array loads as its non-draft items in order, and unchanged when it has none |
| Store.LoadLegacyQueueSpec | script.js:28-35 | the older loader gives the empty queue on a missing or unparsable record, keeps draft items, and keeps a non-array value as it is; on a draft-free array it agrees with the newer loader |
| Store.RemoveAtSpec | script.user.js:351 | `splice(i, 1)` at an index in range removes exactly that element: earlier elements keep their places, later ones move down by one, and the multiset loses only it |
| Store.SpliceStart | script.js:178 | the start `splice` derives from any integer index lies within the queue |
| Store.SpliceOneSpec | script.js:177-181 | Remove's `splice(idx, 1)` removes the element at an index in range, changes nothing at or past the end, and counts a negative index back from the end |
| Store.FindId | script.user.js:362 | `findIndex` gives the first index whose item has the id, or none when no item has it |
| Store.RemoveIdSpec | script.user.js:360-365 | with at most one item carrying the id, removal by id leaves no item with that id and keeps every other item |
| Store.RemoveIdLast | script.user.js:360-365 | removing by the id of the item appended last, when no earlier item has that id, takes exactly that item off the back |
| Store.IdBound | script.user.js:329 | the first fresh id is above every loaded id, so fresh ids never collide with loaded ones |
| Dispatcher.DraftsTrackedRemoveAt | script.user.js:347-358 | removing any item keeps the draft bookkeeping consistent when the record keeps its id and lines |
| Dispatcher.DraftsTrackedRemoveId | script.user.js:367-375 | removing the tracked draft's id leaves a queue with no draft item |
| Dispatcher.TakeFrontTracked | script.user.js:403-413 | taking the front of a draft-free queue, with or without a fresh draft appended at the back, leaves every draft item tracked by the record |
| Dispatcher.Controller.constructor | script.user.js:40-50 | start-up loads the stored queue without drafts, unlocked, idle, with no draft record |
| Dispatcher.Controller.Enqueue | script.user.js:327-338 | appends exactly one item with a fresh id, the given lines and draft flag; earlier items are unchanged and in order |
| Dispatcher.Controller.Dequeue | script.user.js:340-345 | returns and removes the front item, the rest keeping their order; on an empty queue returns nothing and changes nothing |
| Dispatcher.Controller.RemoveQueueItemAt | script.user.js:347-358 | an index out of range returns nothing and changes nothing; an index in range removes exactly that item and cancels the restore when it is the tracked draft; the class invariant is preserved |
| Dispatcher.Controller.RemoveQueueItemById | script.user.js:360-365 | removes the first item with the id, if any, cancelling the restore when it is the tracked draft |
| Dispatcher.Controller.RestorePendingDraft | script.user.js:367-375 | forgets the draft record, removes the draft item by id, and writes the saved lines to the box only when the restore was not cancelled |
| Dispatcher.Controller.TrySendNext | script.user.js:393-421 | no-op while locked, on an empty queue, while busy or with no box. Otherwise it takes the lock and parks non-blank box content as a draft item at the back, using one fresh id. It takes the original front item, never a draft, and writes it into the box. The `!item` abort is unreachable |
| Dispatcher.Controller.Submit | script.user.js:421-425 | the box's contents at that moment are submitted, and the attempt waits for busy |
| Dispatcher.Controller.AfterBusyWait | script.user.js:427-435 | on both branches the draft is restored and no draft item remains. When busy was not observed, the lock is released and the taken item is not put back. When it was, the attempt goes on holding the lock |
| Dispatcher.Controller.AfterIdleWait | script.user.js:437-440 | the lock is released and the controller is idle again |
| Dispatcher.Controller.Keydown | script.user.js:443-460 | only plain Enter, in the box, with the box present and the agent busy, is taken from the page. Then blank input leaves everything unchanged. Otherwise exactly one non-draft item with the box's lines and a fresh id is appended, and the box is reset to one empty line |
| Dispatcher.Controller.Clear | script.user.js:266-271 | empties the queue and cancels any pending restore, leaving the box as it is |
| Dispatcher.Controller.Edit | script.user.js:236-243 | an index out of range changes nothing. Otherwise it removes that item and cancels the restore when the item is the tracked draft, leaving the draft record as it was otherwise. It loads the item's lines into the box when there is one |
| Dispatcher.Controller.UndisturbedAttempt | script.user.js:393-440 | a whole attempt with no user action delivers the front item and advances the queue by exactly that item, whether or not the agent answers. It ends unlocked and idle with no draft in the queue. The box ends holding the lines the user had typed, written back by `linesToEditor`, or the delivered item when nothing was typed |
| Dispatcher.Controller.CaptureAndSubmit | script.user.js:393-425 | with non-blank lines in the box, an attempt parks them as a draft with a fresh id at the back, submits the front item, and waits for busy |
| Dispatcher.Controller.EditWhileAwaitingBusy | script.user.js:236-243 | Edit on the first row while the attempt waits for busy takes the next item into the box and leaves the draft record and its restore in place |
| Dispatcher.Controller.AttemptWithEdit | script.user.js:427-432 | after such an Edit and no answer from the agent, the restore writes the draft over the edited item: the queue loses both the delivered and the edited item, and the box holds the draft |
| Dispatcher.CaptureScenario | script.user.js:443-460 | Enter while busy queues exactly one ordinary item with the typed lines and leaves one empty line in the box |
| Dispatcher.DraftScenario | script.user.js:401-435 | with typed text in the box, an attempt delivers the queued item, not the draft. The queue ends empty and the box holds the typed text again |
| Dispatcher.FifoScenario | script.user.js:340-345 | two attempts deliver two queued items in the order they were queued |
| Dispatcher.EditDuringAttemptScenario | script.user.js:367-375 | with two queued items and typed text, an Edit during the wait for busy ends with an empty queue, the typed text in the box and only the first item delivered, so the edited item is lost |
| LegacyDispatcher.LegacyController.constructor | script.js:28-35 | start-up loads the stored array as it is, with no timer pending |
| LegacyDispatcher.LegacyController.AddToQueue | script.js:262-270 | appends exactly one item with a fresh id and the given lines; earlier items are unchanged |
| LegacyDispatcher.LegacyController.PopLatest | script.js:272-277 | returns and removes the last (newest) item; on an empty queue returns nothing |
| LegacyDispatcher.LegacyController.TrySendNext | script.js:281-299 | no-op on an empty queue, while busy or with no box. Otherwise it removes exactly the newest item and writes it into the box. It cancels the previous delayed submit, so exactly one is pending. The `!item` return is unreachable |
| LegacyDispatcher.LegacyController.SubmitTimerFires | script.js:293-298 | the firing timer is no longer pending; the box is submitted unless the agent is busy by then |
| LegacyDispatcher.LegacyController.Keydown | script.js:301-327 | only plain Enter, in the box, with the box present and the agent busy, is taken from the page. Then blank input leaves the queue unchanged. Otherwise one item with the lines and a fresh id is appended, and the box is reset to one empty line |
| LegacyDispatcher.LegacyController.Clear | script.js:190-194 | empties the queue |
| LegacyDispatcher.LegacyController.Remove | script.js:177-181 | removes the element at the row's index and leaves the others in order; an index past the end changes nothing |
| LegacyDispatcher.NewestFirstScenario | script.js:272-290 | with two queued items, an attempt writes the newer one and leaves the older one queued |
| LegacyDispatcher.OneTimerScenario | script.js:292-298 | two attempts in a row leave only the second delayed submit pending |

## Left out

- Panel rendering, CSS, collapse toggling and the queue-row layout are not
  modelled. `summarize` is modelled, without the DOM that shows it.
- `localStorage` and JSON are not modelled. The stored record is one of:
  absent, unparsable, an array of well-formed items, or another JSON value.
  Saving after each change is best-effort and has no effect on the
  in-memory queue, so it is omitted. Array entries that are not item
  records (null, numbers) are not modelled.
- Item ids and time stamps from `Date.now()` and `Math.random()` are a
  fresh-id counter and a `now` parameter. The `!id` test of
  `removeQueueItemById` has no counterpart, since counter ids are never
  empty.
- Timers, `setInterval`, the `MutationObserver` and the polling inside
  `waitFor` are not modelled as time. Each trigger is an outside call to
  `TrySendNext`. Each `waitFor` ends in the step after it, which reads the
  `busy` field the environment has set. Its time-out is that field not
  having changed.
- `getEditor`, `isSending`, `getSendButton`, `placeCaretAtEnd`, the caret,
  and the `input` and keyboard events dispatched on the box are not
  modelled.
  - Clicking the send button and simulating Enter are one `Submit` step
    (script.user.js:423-425), and likewise in the older timer: the
    80-millisecond follow-up click inside `simulateEnterOn` is folded into
    that one step.
  - The older timer submits the box it captured. The model has only one
    box.
- Dispatcher.Controller.RemoveQueueItemAt: takes an integer index. The
  script's rejection of a non-number index (`typeof index !== "number"`) is
  therefore not modelled, and neither are fractional or NaN indices. Every
  caller passes a row index.
- Edit and Remove act on the index a row had when the panel was drawn. The
  model takes that index as a parameter.
- The browser's HTML parser is modelled only on the markup the scripts
  write: paragraphs of escaped text. For that markup the model covers the
  parser's CR and NUL handling, but not entities other than the three
  `escapeHtml` produces. `textContent` of a plain-text box is modelled as
  the plain string.
- Editor.ReadWritten: states the read-back only for lines without CR or
  NUL, because the parser changes those (Editor.CarriageReturnNormalised).
  The same condition appears in Dispatcher.Controller.UndisturbedAttempt's
  read-back clauses and in Dispatcher.DraftScenario. The exact state,
  `Written` of the typed lines, is stated without it.
- `summarize` counts characters; JavaScript counts UTF-16 code units. Text
  outside the Basic Multilingual Plane is cut differently.
- The `script.user.js` ellipsis literal is three characters, U+00E2 U+20AC
  U+00A6: the UTF-8 bytes of U+2026 read back one by one. Text.SummarizeSpec
  states its bound with the literal's length rather than maxLen.
- The draft is written back with its no-break spaces
  (script.user.js:403, 408, 372). Reading the box then drops them, so for a
  plain-text box the next read gives the stripped lines.
- LegacyDispatcher.LegacyController.constructor: requires the stored
  record to load as an array. The older loader assigns a non-array JSON
  value to `queue` as it is (script.js:31), and what the older script then
  does with such a value is not modelled.
- The `!item` abort after `dequeue()` (script.user.js:413-417) cannot
  fire. The queue is non-empty on entry, a captured draft goes to the back,
  and the front item is taken. Dispatcher.Controller.TrySendNext proves
  the branch dead.
- The skip when a draft is already tracked is kept in
  Dispatcher.Controller.TrySendNext. Under the class invariant it cannot
  happen: a draft record exists only while an attempt holds the lock.
