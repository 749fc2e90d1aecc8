# Résumé-assistant page controller, modelled in Dafny

This project models the client-side controller of the résumé-assistant web page
(`frontend/src/app/page.tsx`). The page holds three independent pieces of state, and each
becomes an immutable record with pure transition functions:

- **Upload panel** (`upload.dfy`, module `Upload`). It holds at most one candidate PDF, the
  latest validation error and the drag-feedback flag. `validateFile`, `handleFileSelect`,
  `handleFileInputChange`, the drag/drop handlers and `handleRemoveFile` are modelled. So is the
  way the rendered panel wires gestures to them: the drop zone exists only while no file is
  stored, and the remove button only while one is. The tier that `formatFileSize` picks, and its
  exact whole-number label below 1 KiB, are in `file_size.dfy` (module `FileSize`).
- **Conversation** (`conversation.dfy`, module `Conversation`). It holds the transcript, the
  draft, the `isLoading` flag and the number of scheduled reply callbacks. `handleSendMessage`,
  the body of its `setTimeout` callback, `getAgentIntroduction`, `handleKeyDown` and the send
  button's `disabled` condition are modelled. The send guard uses JavaScript's `trim`, which is
  modelled in `js_string.dfy` (module `JsString`) with the white-space set of ECMA-262.
- **Theme** (`theme.dfy`, module `Theme`). It holds the dark flag, the document's `dark` class
  and the `theme` slot of local storage. The start-up effect and `toggleTheme` are modelled.

Browser inputs are parameters or events. These are the file's media type and size, the
stored theme value, the `prefers-color-scheme: dark` signal, and a reply callback that runs.
The main results are reachable-state invariants over event sequences:

- A stored file has always passed validation, and no error is shown beside it.
- Chat turns alternate user/assistant, starting with the user.
- `isLoading` holds exactly when the transcript has odd length.
- At most one reply callback is ever outstanding.
- The document class always equals the theme flag.
- After a toggle, a reload restores the chosen theme.

Some behaviours of the code are worth stating plainly:

- The start-up theme effect only reads storage and never writes it. Before the first toggle,
  the slot can be empty while the flag follows the platform signal. It can also hold a
  non-empty value other than "dark" or "light", and then the flag is light.
- The transcript has no reset operation, and there is no failure path for replies: the
  loading flag clears only when the reply callback runs.
- While a file is stored only the remove button is shown: the drop zone, and the click that
  opens the file picker, are not rendered. So in the running page a stored file is never
  replaced by a new selection. `SelectReplaces` states replacement for the handler alone.
- The refusal text for large files says "less than 10MB", but the check is inclusive. A file of
  exactly 10 MiB is accepted.

## Model

| member | source | states |
|---|---|---|
| JsString.TrimShape | frontend/src/app/page.tsx:153-158 | the trimmed draft is a contiguous piece of the input with only white space cut from either end, and it neither starts nor ends with white space |
| JsString.TrimUnique | frontend/src/app/page.tsx:153-158 | trimming is determined by that shape: white space around a tight core trims to exactly that core |
| JsString.TrimEmptyIff | frontend/src/app/page.tsx:153 | a draft trims to the empty string exactly when it is all white space, which is when the send guard refuses it |
| JsString.TrimIdempotent | frontend/src/app/page.tsx:158 | a trimmed message trims to itself |
| FileSize.TierOf | frontend/src/app/page.tsx:119-123 | bytes below 1024, kilobytes below 1024*1024, megabytes from there on, each as an if-and-only-if |
| FileSize.TierMonotonic | frontend/src/app/page.tsx:119-123 | a larger file never gets a smaller unit |
| FileSize.DecimalRoundTrip | frontend/src/app/page.tsx:120 | the whole-number numeral written for a size reads back as that size |
| FileSize.ByteLabel | frontend/src/app/page.tsx:120 | a byte-tier label is a non-empty run of digits followed by " B" |
| FileSize.ByteLabelExact | frontend/src/app/page.tsx:120 | a size below 1 KiB is labelled as its exact numeral, with no leading zeros, followed by " B" |
| Upload.Validate | frontend/src/app/page.tsx:50-63 | type is checked before size: a non-PDF is the wrong type whatever its size; a PDF is accepted up to and including 10485760 bytes and refused as too large above |
| Upload.ErrorTextInjective | frontend/src/app/page.tsx:53-59 | the two refusal messages differ, so the shown text tells which check failed |
| Upload.SelectFile | frontend/src/app/page.tsx:65-75 | an acceptable file replaces the stored one and clears the error; a refused one leaves the stored file and records its reason |
| Upload.SelectReplaces | frontend/src/app/page.tsx:65-75 | two accepted selections leave the second file stored with no error |
| Upload.RefusalKeepsAccepted | frontend/src/app/page.tsx:65-75 | a refused selection after an accepted one keeps the accepted file and shows the refusal |
| Upload.SelectFirst | frontend/src/app/page.tsx:100-105 | with no files nothing changes; otherwise the error becomes the first file's validation result, the first file is stored exactly when it is acceptable, and the drag flag is untouched |
| Upload.SelectFirstIgnoresRest | frontend/src/app/page.tsx:100-105 | files after the first one picked make no difference |
| Upload.DragOver | frontend/src/app/page.tsx:77-81 | drag-over turns the drag flag on and leaves file and error alone |
| Upload.DragLeave | frontend/src/app/page.tsx:83-87 | drag-leave turns the drag flag off and leaves file and error alone |
| Upload.Drop | frontend/src/app/page.tsx:89-98 | a drop always ends with the drag flag off; an empty drop changes nothing else; a non-empty drop is selecting the first file |
| Upload.DropIgnoresRest | frontend/src/app/page.tsx:94-97 | files after the first one dropped make no difference |
| Upload.RemoveFile | frontend/src/app/page.tsx:111-117 | remove leaves no stored file and no error |
| Upload.RemoveIdempotent | frontend/src/app/page.tsx:111-117 | removing twice is the same as removing once |
| Upload.Step | frontend/src/app/page.tsx:259-354 | while a file is stored only the remove button changes the state; while none is stored, remove does nothing, drag-over and drag-leave only set the flag, a drop is handled as `handleDrop`, and a pick selects the first file |
| Upload.StepPreservesInvariant | frontend/src/app/page.tsx:268-335 | each gesture the rendered panel dispatches keeps the stored file validated and the error absent beside it |
| Upload.RunPreservesInvariant | frontend/src/app/page.tsx:65-117 | any sequence of gestures keeps that invariant |
| Upload.ReachableInvariant | frontend/src/app/page.tsx:14-16 | every state reachable from the empty panel has a validated file or none, and no error beside a file |
| Upload.StoredSizeWithinLimit | frontend/src/app/page.tsx:327 | a stored file is at most 10 MiB, so its megabyte label is at most 10.00 |
| Upload.DragThenDropScenario | frontend/src/app/page.tsx:77-98 | drag-over then a drop of one acceptable PDF ends with that file stored, no error and the drag flag off |
| Conversation.Send | frontend/src/app/page.tsx:152-164 | a send with a blank draft or while loading changes nothing; otherwise exactly one user message with the trimmed draft is appended, the draft is cleared, loading is set and one reply is scheduled |
| Conversation.SendDisabledIffNoOp | frontend/src/app/page.tsx:517 | the send button is disabled exactly when a send would change nothing |
| Conversation.BlankDraftIsNoOp | frontend/src/app/page.tsx:153 | a draft of white space only is never sent |
| Conversation.Complete | frontend/src/app/page.tsx:167-177 | the reply callback appends exactly one assistant message carrying the introduction text, clears loading and keeps the draft |
| Conversation.IntroductionTight | frontend/src/app/page.tsx:138-150 | the introduction is non-empty and neither starts nor ends with white space |
| Conversation.Step | frontend/src/app/page.tsx:167-185 | Enter without Shift sends and every other key changes nothing; clicking the button is the same as a send, because it is disabled exactly when a send would be a no-op; typing changes only the draft; a scheduled callback runs the reply completion, and one that was never scheduled changes nothing |
| Conversation.SendPreservesInvariant | frontend/src/app/page.tsx:152-164 | an accepted send keeps the transcript alternating, with the new user turn trimmed and non-empty |
| Conversation.StepPreservesInvariant | frontend/src/app/page.tsx:152-185 | typing, key presses, clicks and reply callbacks all keep the alternation, loading-parity and single-callback invariant |
| Conversation.RunPreservesInvariant | frontend/src/app/page.tsx:152-185 | any sequence of events keeps that invariant |
| Conversation.ReachableInvariant | frontend/src/app/page.tsx:17-19 | in every reachable state roles alternate starting with the user, loading holds exactly when the transcript length is odd, and at most one reply is outstanding |
| Conversation.ReachableMessagesTrimmed | frontend/src/app/page.tsx:152-177 | every message in a reachable transcript, user or assistant, is non-empty and already trimmed |
| Conversation.RunAppendsOnly | frontend/src/app/page.tsx:162-175 | the transcript only grows, by at most one message per event |
| Conversation.HelloWorldScenario | frontend/src/app/page.tsx:138-178 | "Hello" is sent, "World" is refused while awaiting, and the reply completes the transcript as the greeting followed by the introduction |
| Theme.Resolve | frontend/src/app/page.tsx:26-28 | a stored "dark" means dark; any other non-empty stored value means light; nothing or an empty string defers to the platform signal |
| Theme.Encode | frontend/src/app/page.tsx:41 | the stored value is "dark" for a dark flag and "light" otherwise |
| Theme.EncodeRoundTrip | frontend/src/app/page.tsx:41 | the value written for a flag resolves back to that flag under any platform signal |
| Theme.Init | frontend/src/app/page.tsx:25-36 | start-up applies the resolved flag to the state and to the document class, without writing storage |
| Theme.Toggle | frontend/src/app/page.tsx:38-48 | toggle flips the flag, the document class follows, and storage holds a value that resolves to the new flag for any platform signal |
| Theme.ReloadAfterToggle | frontend/src/app/page.tsx:25-48 | starting up again after a toggle restores exactly the toggled state |
| Theme.ToggleTwice | frontend/src/app/page.tsx:38-48 | two toggles restore the flag and document class |
| Theme.TogglesFrom | frontend/src/app/page.tsx:38-48 | after n toggles the flag is the initial one flipped n times, the document class equals it, and after at least one toggle storage alone decides a reload |
| Theme.ReachableInvariant | frontend/src/app/page.tsx:13 | in every reachable state the document class equals the flag and a reload with the same platform signal gives the same flag |
| Theme.FirstVisitScenario | frontend/src/app/page.tsx:25-48 | nothing stored with a dark platform starts dark; a toggle gives light and stores "light"; later start-ups are light whatever the platform says |

## Left out

- Message identifiers and timestamps come from `Date.now()` and `new Date()`. They are not
  modelled, so the model claims nothing about their uniqueness. The code does not guarantee it:
  a reply's id is the clock plus one, and a send in the next millisecond would reuse it.
- The 1000 ms delay is not modelled. The callback's running is a `TimerFires` event, which does
  nothing when no callback is scheduled.
- The decimal output of `formatFileSize` in the kilobyte and megabyte tiers is left out. It comes
  from floating-point division and `toFixed(2)`. Only the chosen tier and the exact byte-tier
  label are modelled.
- `preventDefault`, `stopPropagation`, resetting the file input's value, auto-scroll and the
  textarea auto-resize are DOM effects with no state of their own here. So are all markup and
  styling.
- Local storage, `matchMedia` and the file picker's dialog are inputs to the model. Storage
  failures are not modelled. Neither is the first render before the theme effect runs, which
  briefly shows light.
- The model over-approximates the file picker. A browser fires no change event when the same
  file is picked again without a removal in between, so the page keeps whatever error it
  showed. The model treats every pick as a fresh selection. For example, pick A (wrong type),
  drop B (a PDF that is too large), then pick A again. The page still shows B's too-large error,
  while the model shows the wrong-type error. A pick that fires nothing is the model's
  `PickFiles([])`, so every browser run is still a model run and the invariants hold for it.
- The picker's `files` list can be `null`. It is modelled as an empty list, which the handler
  treats the same way.
- `backend/app/main.py` and `backend/app/config.py` are not part of this model. They are
  framework wiring: app construction, CORS, fixed health responses and settings loading.
- Characters are Unicode code points rather than UTF-16 code units. Every character `trim`
  removes is a single code unit, so trimming is unaffected.
