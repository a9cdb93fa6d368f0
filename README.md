# HostClipboard: the clipboard poller, in Dafny

A model of `main/src/shortcuts/HostClipboard.ts`. That file lets the
application read the text the game puts on the system clipboard when a
player inspects an item, and lets it change the clipboard briefly and put it
back.

- **Item text recognisers** (module `ItemText`, `item_text.dfy`).
  - `IsPoeItem` says whether text starts with the "item class" line of one
    of the game's 11 client languages.
  - `IsUncutSkillGem` recognises the text of an uncut gem. That text lacks
    the class line. Its first line starts with "Rarity: Currency" and its
    second line with one of three gem names.
  - `CorrectUncutGem` prepends the missing line `Item Class: UncutSkillGem`.
  - `Split` and `Join` model `String.split` on a one-character separator.
- **The poller** (module `ClipboardPoller`, `host_clipboard.dfy`).
  - Class `HostClipboard` holds the session state: `polling` and
    `textBefore` stand for the pending poll promise and the text it saved.
    It also holds `elapsed`, `shouldRestore`, `isRestored` and the host
    clipboard itself, as the field `clipboard`.
  - Each timer firing is a method that the environment calls. `PollTick` is
    one run of the `poll` closure. `RestoreTimerFires` is the callback that
    `restoreShortly` schedules.
  - The pure functions `Poll` and `RunTicks` state what one poll and a run
    of polls do. The lemmas about them give the session's lifecycle:
    - a poll that reads neither item nor gem text adds 48 to `elapsed`;
    - from a fresh start, the eleventh such poll in a row times out
      (480 < 500 ≤ 528);
    - the first item text read within the budget resolves the session with
      that text, corrected.
  - The object invariant `Valid` says that `elapsed` counts whole poll
    delays and stays under the limit while a session runs. It also says that
    the text a session saved is never item text, because stale item text is
    replaced by "".
- **Scenarios** (module `Scenarios`, `scenarios.dfy`).
  - `DrivePoll` fires the poll timer repeatedly while the game writes a
    given sequence of texts. It shows that the class steps exactly as
    `RunTicks` says.
  - The other methods run whole sessions against a fresh poller: a timeout
    with restore, a resolution with restore, a session extended by a second
    request, and the `restoreShortly` throttle.

A request wipes stale item text from the clipboard, but not stale uncut gem
text, which is not item text until it is corrected. A request made while
such text is on the clipboard resolves on the first poll with that old text,
if nothing has overwritten it by then (the game writes nothing, or writes
only after the first poll, 48 ms after the request).
`StaleGemTextResolvesAtOnce` states this.

The code always restarts the time budget when `readItemText` is called
while a session runs, so repeated requests can keep a session pending past
eleven polls. The model keeps this behaviour, and `RepeatedRequestsExtendSession`
states it.

## Model

| member | source | states |
|---|---|---|
| `ItemText.Find` | main/src/shortcuts/HostClipboard.ts:103 | `find` (here and at lines 112-114) returns a row exactly when some row's prefix starts the text, and the row it returns is the first such row |
| `ItemText.Join` | main/src/shortcuts/HostClipboard.ts:107 | joining one line gives that line; joining more puts the separator right after the first line |
| `ItemText.IsUncutSkillGem` | main/src/shortcuts/HostClipboard.ts:106-120 | uncut gem text always starts with "Rarity: Currency" and always holds a line break |
| `ItemText.CorrectUncutGem` | main/src/shortcuts/HostClipboard.ts:47-50 | the correction either keeps the text or puts the class line in front of the whole text; item text is always kept as it is |
| `ItemText.IsPoeItem` | main/src/shortcuts/HostClipboard.ts:102-104 | some language prefix starts the text (`HasPrefixIn` over the language table); tied to `find` by `ItemTextIsFound` |
| `ItemText.ItemTextIsFound` | main/src/shortcuts/HostClipboard.ts:102-104 | `isPoeItem` holds exactly when `find` over the language table returns a row, and that row's prefix starts the text |
| `ItemText.UncutSkillGemIsFound` | main/src/shortcuts/HostClipboard.ts:106-120 | `isUncutSkillGem` holds exactly when the text has two or more lines, the first starts with "Rarity: Currency" and `find` over the gem table returns a row for the second |
| `ItemText.GemPrefixesAreOneLine` | main/src/shortcuts/HostClipboard.ts:122-135 | no prefix in the gem table holds a line break |
| `ItemText.FirstIndex` | main/src/shortcuts/HostClipboard.ts:107 | the position found is a `c`, and no `c` comes before it |
| `ItemText.Split` | main/src/shortcuts/HostClipboard.ts:107-108 | `split` gives at least one piece, at least two exactly when the separator occurs, no piece holds the separator, and `Join` of the pieces gives the text back |
| `ItemText.SplitJoin` | main/src/shortcuts/HostClipboard.ts:107 | `Split` undoes `Join` when no piece holds the separator (the other half of the round trip) |
| `ItemText.PrefixOfFirstPiece` | main/src/shortcuts/HostClipboard.ts:111-113 | a prefix without a line break starts the first line exactly when it starts the whole text |
| `ItemText.LanguagePrefixesStartApart` | main/src/shortcuts/HostClipboard.ts:137-182 | no language prefix in the table is empty, and none starts with the 'R' of "Rarity: Currency" |
| `ItemText.EmptyIsNotItem` | main/src/shortcuts/HostClipboard.ts:38-41 | "" is not item text, so wiping stale text leaves nothing that would be detected again |
| `ItemText.GemPrefixOfFirstLine` | main/src/shortcuts/HostClipboard.ts:112-114 | a gem prefix starts line 1 exactly when it starts the text after the first line break |
| `ItemText.UncutSkillGemIff` | main/src/shortcuts/HostClipboard.ts:106-135 | `isUncutSkillGem(t)` holds exactly when `t` starts with "Rarity: Currency" and the text right after its first line break starts with "Uncut Skill Gem", "Uncut Spirit Gem" or "Uncut Support Gem"; it is false when `t` has no line break |
| `ItemText.UncutGemIsNotItem` | main/src/shortcuts/HostClipboard.ts:47-52 | uncut gem text is never item text as it stands, so the correction is needed |
| `ItemText.CorrectionAccepts` | main/src/shortcuts/HostClipboard.ts:47-52 | after the correction, text is item text exactly when it was item text or uncut gem text; gem text becomes `"Item Class: UncutSkillGem\n" + t`, and other text is unchanged |
| `ItemText.MissingClassLineIsAdded` | main/src/shortcuts/HostClipboard.ts:47-50 | "Rarity: Currency", a line break, a gem name and any rest gets exactly the class line prepended |
| `ItemText.EnglishGemTextIsItem` | main/src/shortcuts/HostClipboard.ts:47-52 | gem text that already has its English class line is item text and is not corrected |
| `ClipboardPoller.Poll` | main/src/shortcuts/HostClipboard.ts:44-74 | one poll resolves exactly when the text read is item or gem text, and its result is item text (the read, corrected); otherwise `elapsed` grows by 48 and the session stays pending exactly while that is under 500 |
| `ClipboardPoller.RunTicks` | main/src/shortcuts/HostClipboard.ts:59-61 | a run of polls consumes at most the reads it is given, and stops early only when the session ends |
| `ClipboardPoller.FailingTicksTimeOut` | main/src/shortcuts/HostClipboard.ts:59-71 | with failing reads, the poll that first brings `elapsed` to 500 is the one that times out |
| `ClipboardPoller.FailingTicksPending` | main/src/shortcuts/HostClipboard.ts:59-61 | failing reads keep the session pending while `elapsed` stays under 500, adding 48 per poll |
| `ClipboardPoller.RunTicksFrom` | main/src/shortcuts/HostClipboard.ts:44-61 | a run of polls that is still pending after i polls either ends at the next poll or continues with the reads after it |
| `ClipboardPoller.FailingTickContinues` | main/src/shortcuts/HostClipboard.ts:59-61 | a failing poll under the limit reschedules the poll, and the run goes on with the next read and 48 more elapsed |
| `ClipboardPoller.ResolvingTickEnds` | main/src/shortcuts/HostClipboard.ts:47-57 | a poll that reads item or gem text ends the run at once with that text, corrected, without adding time |
| `ClipboardPoller.FirstItemResolves` | main/src/shortcuts/HostClipboard.ts:45-61 | the first read within the budget that is item or gem text resolves the session with that text, corrected |
| `ClipboardPoller.EleventhFailingTickTimesOut` | main/src/shortcuts/HostClipboard.ts:5-6 | from 0, ten failing polls leave the session pending at 480 and the eleventh times it out at 528 |
| `ClipboardPoller.HostClipboard.constructor` | main/src/shortcuts/HostClipboard.ts:14-25 | a new poller has no session, `elapsed` 0, restoring off and `isRestored` set |
| `ClipboardPoller.HostClipboard.IsPolling` | main/src/shortcuts/HostClipboard.ts:21-23 | `isPolling` is true exactly while a session is pending |
| `ClipboardPoller.HostClipboard.UpdateOptions` | main/src/shortcuts/HostClipboard.ts:27-29 | sets `shouldRestore` and nothing else, keeping the invariant |
| `ClipboardPoller.HostClipboard.ReadItemText` | main/src/shortcuts/HostClipboard.ts:31-43 | always resets `elapsed` to 0; while a session runs it joins it and changes nothing else; otherwise it starts a session that saves the clipboard text, or saves "" and wipes the clipboard when the clipboard held item text |
| `ClipboardPoller.HostClipboard.PollTick` | main/src/shortcuts/HostClipboard.ts:44-74 | steps the session as `Poll` does on the current clipboard; when the session ends it is cleared, and the saved text is written back if restoring is on; a timeout logs exactly one warning |
| `ClipboardPoller.HostClipboard.RestoreShortly` | main/src/shortcuts/HostClipboard.ts:83-92 | when a restore is pending, nothing changes and the action is not run; otherwise it saves the clipboard, applies the action once and marks a restore as pending |
| `ClipboardPoller.HostClipboard.RestoreTimerFires` | main/src/shortcuts/HostClipboard.ts:93-98 | writes the snapshot back if restoring is on when the timer fires, and marks the restore done |
| `Scenarios.DrivePoll` | main/src/shortcuts/HostClipboard.ts:44-75 | successive poll timer firings over the texts the game writes step the session exactly as `RunTicks` does, with the same elapsed time; the clipboard ends as the saved text if the session ended with restoring on, and otherwise as the last text written (or as it was, if there were no polls); the saved text, the options and the restore state are unchanged, a timeout logs one warning, and the invariant is kept |
| `Scenarios.TimeoutRestoresClipboard` | main/src/shortcuts/HostClipboard.ts:37-71 | with restoring on and no item text appearing, the request times out on the eleventh poll with one warning, and the clipboard ends as it was (or "" if it held stale item text) |
| `Scenarios.ItemTextResolvesAndRestores` | main/src/shortcuts/HostClipboard.ts:37-57 | with restoring on, item text on the k-th poll (k < 11) resolves the request with that text, corrected, and the clipboard ends as it was before the request, or "" if it held stale item text |
| `Scenarios.StaleGemTextResolvesAtOnce` | main/src/shortcuts/HostClipboard.ts:37-57 | stale uncut gem text is not wiped by a request (it is not item text), so if the game writes nothing the first poll resolves with it, corrected, and restoring puts it back |
| `Scenarios.RepeatedRequestsExtendSession` | main/src/shortcuts/HostClipboard.ts:31-35 | a second request joins the running session and restarts its budget, so twenty failing polls still leave it pending |
| `Scenarios.RestoreShortlyThrottles` | main/src/shortcuts/HostClipboard.ts:83-98 | a second `restoreShortly` before the timer fires neither runs its action nor changes the clipboard; the timer restores the first snapshot; then a call runs again |

## Left out

- Electron's clipboard API is the string field `clipboard`. Writes by other programs, such as the game, are assignments to that field made by the environment (`DrivePoll`).
- Real timers are left out. Each `setTimeout` firing is an explicit call (`PollTick`, `RestoreTimerFires`). `PollTick` requires a running session and `RestoreTimerFires` requires a pending restore (`isRestored` false). In the source, those are the states in which that timer is scheduled, except after a callback that throws (see the `RestoreShortly` line). Time between calls and the 120 ms delay of `restoreShortly` are not modelled.
- Promise sharing is not modelled. Callers that join a running session get the same outcome in the source. Here `ReadItemText` only reports `joined`, and the outcome is what `PollTick` returns. The rejection's `Error` object is the `TimedOut` outcome.
- The logger is the ghost counter `warnings`. The constructor's logger parameter and the message text are left out.
- The callback passed to `restoreShortly` is caller code. It is a function from the clipboard text to the new clipboard text. A callback that never writes is the identity function.
- `Array.prototype.find` is `Find`, which returns the position of the first matching row. Both callers use its result only as a condition, so the recognisers are defined with `HasPrefixIn`, which says that some row matches. `ItemTextIsFound` and `UncutSkillGemIsFound` tie the two together.
- `String.prototype.split` is modelled only for a one-character separator, which is the only way the source uses it. `startsWith` is the sequence prefix test over Dafny strings. UTF-16 code units are not modelled. This does not change the prefix comparisons, because every character of every prefix in the tables is in the Basic Multilingual Plane.
- The unused `stream/consumers` import has no counterpart.
- RestoreShortly: the callback is a total function here, so a callback that throws is not modelled. In the source, `isRestored` is already false when the callback runs (line 90), and a throw skips the `setTimeout` (line 93). No restore timer is then scheduled, `isRestored` stays false, and every later `restoreShortly` call is ignored.
