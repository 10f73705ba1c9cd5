# Conflict dialog and namespaced store: a Dafny model

This project models two pieces of sequential logic from the Self-hosted LiveSync
Obsidian plug-in.

1. **The conflict-resolution dialog** (`ConflictResolveModal`). There is one
   dialog, and one decision, per file name. A dialog talks to other dialogs only
   through two topics of the process-wide signal helper:
   - `"cancel-resolve-conflict:" + filename`: construction and opening publish
     `true` here, which supersedes an older dialog for the same file;
   - `"close-resolve-conflict:" + filename`: closing publishes the dialog's answer
     here, at most once, and then `false` on the cancel topic.

   A waiter turns a timed-out wait into `CANCELLED`. The dialog also renders
   the diff-match-patch edit script as HTML spans.
2. **The namespaced simple store** (`_getSimpleStore`). For a `kind`, it
   addresses the shared key-value database under `kind + "-" + key`. Its key
   listings keep the raw keys that carry that prefix and strip it.

## Layout

- `wrappers.dfy` (module `Wrappers`): `Option`, for JavaScript's `undefined`.
- `signals.dfy` (module `Signals`): the signal bus. It is one ordered log of
  `Sent(topic, value)` entries, so the order of publications on different topics
  can be stated. `History(log, topic)` is what one topic has seen.
  `WaitResult` is what an awaited wait resolves with: a value, or the timeout
  sentinel.
- `diff_render.dfy` (module `DiffRender`): the rendering loop (`RenderDiff`),
  the per-operation span, the newline replacement, and a reference form
  (`Joined`: one finished span per operation).
- `conflict_dialog.dfy` (module `ConflictResolve`):
  - the class `ConflictResolveModal`, with the fields `response` and `consumed`
    and methods for the constructor, `onOpen`, the cancel listener,
    `sendResponse` and `onClose`;
  - the same behaviour on values (`Step`, `Run` over event sequences);
  - an independent reference, `Decision`, for the answer a dialog gives;
  - `WaitForResult`.
- `simple_store.dfy` (module `SimpleStore`): the key-value database, the core that
  holds it, and the store object with `Get`, `Set`, `Delete` and `Keys`. The
  pure `StoredKey`, `Lookup` and `StripPrefixed` specify them.

## How races are modelled

Nothing here is concurrent. A dialog's life after `onOpen` is a sequence of
`Event`s:

- `Click(r)`: a button is clicked, so `sendResponse(r)` runs.
- `CancelDelivered(w)`: the cancel listener's single wait resolves with `w`.
- `Close`: the dialog is closed some other way.

The listener started in `onOpen` awaits one value and then ends. The model
tracks it with the ghost field `listening`. Its test `if (forceClose)` treats
the timeout sentinel as truthy, as it treats `true`. So a listener that first
wakes with `false` is retired, and the dialog then ignores every later
superseding `true` (`FalsyWakeRetiresListener`).

## Behaviour worth knowing

- A superseded dialog has no terminal state of its own: it answers `CANCELLED`,
  like a dialog cancelled by its last button (`SupersededDialogCancels`).
- The dialog keeps no timer of its own. If its listener's wait times out (the
  signal helper's default timeout, which is not part of this model), the
  timeout sentinel is truthy, so the dialog answers `CANCELLED`
  (`ForcesClose`, `Step` on `CancelDelivered(TimedOut)`). A waiter's own
  timeout is mapped to `CANCELLED` by `waitForResult` (`WaitForResult`).
- The answer is published at most once (`AtMostOneAnswer`). It is published only
  when the dialog is closed, by a click, a truthy cancel wake, or a close; a
  dialog that is never closed publishes nothing.
- A `true` on the cancel topic supersedes the dialog only if it is the first
  value its one-shot listener receives (`FalsyWakeRetiresListener`).
- Every dialog for a file publishes on the same close topic. A waiter may
  therefore obtain the answer of an older dialog for that file, such as the
  CANCELLED of a superseded one, if the signal helper still holds it. Whether
  it does depends on the helper's retention window, which is not part of this
  model (`WaiterSeesDecisionOrCancel`).

## Model

| member | source | states |
|---|---|---|
| `DiffRender.OpenTag` | src/modules/features/InteractiveConflictResolving/ConflictResolveModal.ts:62-77 | exactly the three tags DIFF_DELETE, DIFF_EQUAL, DIFF_INSERT get an opening span tag, and no opening tag holds a newline (the class of each tag's span is stated by `RenderedSingle`) |
| `DiffRender.RenderDiff` | src/modules/features/InteractiveConflictResolving/ConflictResolveModal.ts:58-80 | the accumulating loop over the script, followed by the final replacement, yields `Rendered(ops)`; the loop invariant says the accumulated string is the spans of the visited prefix |
| `DiffRender.RenderedIsJoined` | src/modules/features/InteractiveConflictResolving/ConflictResolveModal.ts:59-80 | the rendered diff is the in-order concatenation of one finished span per operation; each newline of the escaped text becomes the `ls-mark-cr` marker followed by `<br>` |
| `DiffRender.RenderedSingle` | src/modules/features/InteractiveConflictResolving/ConflictResolveModal.ts:62-77 | a DIFF_DELETE, DIFF_EQUAL or DIFF_INSERT operation renders as its classed span; an operation with any other tag renders as nothing |
| `DiffRender.RenderedAppend` | src/modules/features/InteractiveConflictResolving/ConflictResolveModal.ts:59-80 | rendering a concatenated script is rendering its parts one after the other, so order is kept |
| `DiffRender.RenderedHasNoNewline` | src/modules/features/InteractiveConflictResolving/ConflictResolveModal.ts:80 | the final string contains no newline character |
| `DiffRender.ReplaceNewlinesRemovesAll` | src/modules/features/InteractiveConflictResolving/ConflictResolveModal.ts:80 | replacing every newline by a text without newline leaves none |
| `DiffRender.ReplaceNewlinesTwice` | src/modules/features/InteractiveConflictResolving/ConflictResolveModal.ts:65-80 | marking each newline as marker plus newline, then replacing newlines, equals one replacement by the marker plus the replacement |
| `DiffRender.SpanFinishes` | src/modules/features/InteractiveConflictResolving/ConflictResolveModal.ts:62-80 | the final replacement turns each accumulated span into its finished form |
| `ConflictResolve.TopicsSeparate` | src/modules/features/InteractiveConflictResolving/ConflictResolveModal.ts:118-119 | a cancel topic never equals a close topic; two cancel (or two close) topics are equal exactly when the file names are |
| `ConflictResolve.Buttons` | src/modules/features/InteractiveConflictResolving/ConflictResolveModal.ts:90-103 | the local-name button answers the right revision; the remote-name button answers the left revision; a "Concat both" button answering LEAVE_TO_SUBSEQUENT exists exactly outside pick mode; the last button ("Not now" or "Cancel") answers CANCELLED |
| `ConflictResolve.CloseStep` | src/modules/features/InteractiveConflictResolving/ConflictResolveModal.ts:111-120 | closing marks the dialog consumed; a first close appends the response on the close topic and then `false` on the cancel topic, in that order; a later close leaves the bus unchanged |
| `ConflictResolve.ConsumedIsSilent` | src/modules/features/InteractiveConflictResolving/ConflictResolveModal.ts:106-116 | once consumed, clicks, cancel signals and closes publish nothing more, and the dialog stays consumed |
| `ConflictResolve.RunPublishesDecision` | src/modules/features/InteractiveConflictResolving/ConflictResolveModal.ts:45-119 | for every event sequence, the bus gains exactly the answer given by the reference `Decision` and then `false`, or nothing; the dialog ends up consumed exactly when something decided |
| `ConflictResolve.AtMostOneAnswer` | src/modules/features/InteractiveConflictResolving/ConflictResolveModal.ts:114-118 | over any event sequence the close topic gains at most one value |
| `ConflictResolve.RunLeavesOtherTopics` | src/modules/features/InteractiveConflictResolving/ConflictResolveModal.ts:118-119 | a dialog's events change no topic other than its own close and cancel topics |
| `ConflictResolve.OtherFilesUntouched` | src/modules/features/InteractiveConflictResolving/ConflictResolveModal.ts:106-119 | a dialog's events never change the close or cancel topic of a dialog for another file name (the publishes at construction and in `onOpen` are covered by their exact bus ensures with `TopicsSeparate`) |
| `ConflictResolve.NoClickMeansCancelled` | src/modules/features/InteractiveConflictResolving/ConflictResolveModal.ts:12-118 | with the initial CANCELLED response and no click, the only possible answer is CANCELLED, and a close does give it |
| `ConflictResolve.UnansweredCloseIsCancelled` | src/modules/features/InteractiveConflictResolving/ConflictResolveModal.ts:12-118 | a freshly opened dialog closed without any click appends CANCELLED on its close topic and then `false` on its cancel topic |
| `ConflictResolve.SupersededDialogCancels` | src/modules/features/InteractiveConflictResolving/ConflictResolveModal.ts:42-49 | if an opened dialog's listener first wakes truthy, the dialog publishes CANCELLED and then `false`, whatever is clicked afterwards |
| `ConflictResolve.FalsyWakeRetiresListener` | src/modules/features/InteractiveConflictResolving/ConflictResolveModal.ts:43-50 | after a falsy first wake, the dialog's answer is decided with every later cancel signal ignored |
| `ConflictResolve.NotListeningIgnoresCancels` | src/modules/features/InteractiveConflictResolving/ConflictResolveModal.ts:44-49 | a dialog whose listener has ended decides as if no cancel signal were delivered |
| `ConflictResolve.WaitForResult` | src/modules/features/InteractiveConflictResolving/ConflictResolveModal.ts:122-127 | a timed-out wait gives CANCELLED; any received value is returned as it is |
| `ConflictResolve.WaiterSeesDecisionOrCancel` | src/modules/features/InteractiveConflictResolving/ConflictResolveModal.ts:122-127 | whatever was published on the file's close topic before, a received answer is this dialog's decided answer or one already on the topic before its run; a timeout gives CANCELLED |
| `ConflictResolve.WaiterOnFreshTopic` | src/modules/features/InteractiveConflictResolving/ConflictResolveModal.ts:122-127 | if nothing was on the file's close topic before the run, the waiter obtains either the dialog's decided answer or CANCELLED |
| `ConflictResolve.ConflictResolveModal.constructor` | src/modules/features/InteractiveConflictResolving/ConflictResolveModal.ts:22-36 | the labels follow pick mode: an absent or empty remote name falls back to "Remote"; response starts CANCELLED and not consumed; `true` is appended on the cancel topic |
| `ConflictResolve.ConflictResolveModal.OnOpen` | src/modules/features/InteractiveConflictResolving/ConflictResolveModal.ts:38-104 | appends `true` on the cancel topic; arms the listener; gives the rendered diff and the buttons; response and consumed are unchanged |
| `ConflictResolve.ConflictResolveModal.OnCancelSignal` | src/modules/features/InteractiveConflictResolving/ConflictResolveModal.ts:44-50 | the listener's wake retires it; a truthy wake answers CANCELLED and closes; the effect is `Step` on a cancel delivery |
| `ConflictResolve.ConflictResolveModal.SendResponse` | src/modules/features/InteractiveConflictResolving/ConflictResolveModal.ts:106-109 | records the answer, then closes; the effect is `Step` on a click |
| `ConflictResolve.ConflictResolveModal.OnClose` | src/modules/features/InteractiveConflictResolving/ConflictResolveModal.ts:111-120 | the first close appends the response on the close topic and then `false` on the cancel topic; later closes change nothing |
| `ConflictResolve.SupersedeScenario` | src/modules/features/InteractiveConflictResolving/ConflictResolveModal.ts:35-49 | an open dialog, superseded by a newer dialog for the same file, publishes exactly one CANCELLED on the close topic; a late click on it adds nothing |
| `SimpleStore.StoredKeyInjective` | src/modules/essential/ModuleKeyValueDB.ts:53-62 | within one kind, two keys share a stored key exactly when they are equal |
| `SimpleStore.KindsCanCollide` | src/modules/essential/ModuleKeyValueDB.ts:53 | kind "a" with key "b-c" and kind "a-b" with key "c" address the same stored key |
| `SimpleStore.SetThenGet` | src/modules/essential/ModuleKeyValueDB.ts:55-60 | after `set(k, v)`, `get(k)` of the same kind gives `v`, and `get` of any other key of that kind is unchanged |
| `SimpleStore.DeleteThenGet` | src/modules/essential/ModuleKeyValueDB.ts:55-63 | after `delete(k)`, `get(k)` gives nothing, and `get` of any other key of that kind is unchanged |
| `SimpleStore.StripPrefixed` | src/modules/essential/ModuleKeyValueDB.ts:73-76 | the listing never has more entries than the raw key list |
| `SimpleStore.StripPrefixedMembers` | src/modules/essential/ModuleKeyValueDB.ts:73-76 | a key is listed exactly when the prefix followed by that key is a raw key |
| `SimpleStore.StripPrefixedAppend` | src/modules/essential/ModuleKeyValueDB.ts:73-76 | the listing of a concatenation is the concatenation of the listings, so relative order is kept |
| `SimpleStore.StripPrefixedOrigins` | src/modules/essential/ModuleKeyValueDB.ts:73-76 | every listed key, with the prefix put back, is one of the raw keys |
| `SimpleStore.SimpleStore.constructor` | src/modules/essential/ModuleKeyValueDB.ts:52-54 | the store for `kind` has prefix `kind + "-"` and reads the core's database |
| `SimpleStore.SimpleStore.Get` | src/modules/essential/ModuleKeyValueDB.ts:55-57 | gives the value stored under `kind-key`, or nothing when that entry is absent |
| `SimpleStore.SimpleStore.Set` | src/modules/essential/ModuleKeyValueDB.ts:58-60 | the database afterwards is the old one with `kind-key` mapped to the value; no other entry changes |
| `SimpleStore.SimpleStore.Delete` | src/modules/essential/ModuleKeyValueDB.ts:61-63 | the database afterwards is the old one without `kind-key`; no other entry changes |
| `SimpleStore.SimpleStore.Keys` | src/modules/essential/ModuleKeyValueDB.ts:64-77 | the listing keeps the raw keys that start with the prefix, stripped, in order; a key is listed exactly when its prefixed form is raw |

## Left out

- DOM and Obsidian `Modal` plumbing is not modelled:
  - the title element, the file-name span, `contentEl.empty()`, CSS classes and
    styles, and assigning `innerHTML`;
  - the date line built with `toLocaleString`, which is locale formatting;
  - the `isClosed` field, which is declared but never used.
- Obsidian's `Modal.close()` is not part of this model. `sendResponse` is
  modelled as calling `onClose` every time.
- The timers (`setTimeout(…, 10)` before the listener starts, `delay(100)` in
  `waitForResult`) are not modelled. Their effect is only on which value a
  wait receives, and that value is an input (`WaitResult`).
- The internals of `sendValue` and `waitForValue` (in lib/src/common/utils.ts)
  are not part of this model: retention window, default timeout and delivery
  to several waiters. The bus records publications; what each wait receives is
  an input.
- `fireAndForget`'s error handling is not modelled.
- `escapeStringToHTML` is not part of this model. Rendering takes it as a
  parameter and uses no property of it.
- The constants CANCELLED, LEAVE_TO_SUBSEQUENT and RESULT_TIMED_OUT (in
  lib/src/common/types.ts) are not part of this model:
  - they are modelled as values distinct from every revision string;
  - the timeout sentinel is taken to be truthy in the listener's test.
- The model has no operation that rebuilds either side of a conflict from an
  edit script, because the source has none.
- Key-value database lifecycle is left out, since it is IndexedDB I/O with
  delays and error handling: `openKeyValueDB`, `tryCloseKvDB`, `_onDBUnload`,
  `_onDBClose`, `_everyOnloadAfterLoadSettings`, `_everyOnInitializeDatabase`,
  `_everyOnResetDatabase` and `onBindFunction`.
- A missing database is not modelled: after a failed open or reset the source
  sets `core.kvDB` to `undefined`, and `get`, `set`, `delete` and `keys` then
  throw. In the model `Core.kvDB` always refers to a database.
- SimpleStore.SimpleStore.Keys: takes the raw key list as input. The database
  applies the `IDBKeyRange.bound` range built from `from`/`to` and the `count`
  limit. Raw keys are taken to be strings already, so `toString()` of
  non-string keys is not modelled.
- Every store call is asynchronous in the source. It is modelled as one atomic
  step.
- src/modules/core/ModulePouchDB.ts is not part of this model. It only picks
  PouchDB constructor options.
