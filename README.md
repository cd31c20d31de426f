# Notes screen state (thought-hook-app)

A Dafny model of the state behind the single "Notes" screen of thought-hook-app,
the `Index` component in `src/pages/Index.tsx`. The screen holds a newest-first
list of notes, a note-id counter, a streak counter, a "Note saved!" toast that
hides itself 1400 ms after it appears, a "New Note" sheet with a draft text, and
a search box. Saving a draft prepends a note, bumps both counters, shows the
toast and closes the sheet; the search box filters the list by title, ignoring
case; each note shows how long ago it was written.

Files, one module each:

- `Text.dfy` — `trim` (with the ECMAScript whitespace set), ASCII lower-casing
  and substring search (`includes`), with their characterising lemmas.
- `Notes.dfy` — the `Note` record, the id-ordering predicates and the search
  filter with its lemmas (subsequence, exact membership, empty query, query case).
- `RelativeTime.dfy` — the "Just now / m / h / d ago" caption as a datatype.
- `Toast.dfy` — the toast and its dismiss timer as a state machine over a
  virtual millisecond clock, and traces of events over it.
- `Screen.dfy` — class `NotesScreen`: the component's state as fields, its
  invariant `Valid()`, and `AddNote`, `Tick` and the input handlers as methods.
- `Wrappers.dfy` — `Option`.

The screen invariant kept by every method: ids fall strictly from head to tail
(hence are distinct) and are all below `noteCounter`; every title is non-empty
and trimmed; `noteCounter` and `streak` are both exactly `|notes| + 1` (they
start at 3 with two seeded notes and rise by one per saved note); and a dismiss
timer is pending exactly while the toast is shown.

Two points of the code's timing that the model keeps:

- Showing the toast while it is already shown does not restart the 1400 ms
  window: the effect is keyed on `showToast` alone, so the first deadline
  stands (`Toast.Show`, `Toast.DeadlineStands`).
- A dismiss timer that is due has fired before the next event is handled:
  `Screen.NotesScreen.AddNote` fires a due timer first, on both branches, so a
  blank save at or after the deadline leaves the toast hidden and a real save
  after it arms a fresh 1400 ms timer.

## Model

| member | source | states |
|---|---|---|
| `Text.TrimStart` | src/pages/Index.tsx:41 | the result is a suffix of the draft, what it drops is all whitespace, and it does not start with whitespace |
| `Text.TrimEnd` | src/pages/Index.tsx:41 | the result is a prefix of the draft, what it drops is all whitespace, and it does not end with whitespace |
| `Text.IsWhitespace` | src/pages/Index.tsx:37-41 | the characters `trim` removes: space is one of them, and no visible ASCII character is |
| `Text.Trim` | src/pages/Index.tsx:37-41 | the trimmed draft has no leading or trailing whitespace, is no longer than the draft, and is empty exactly when the draft is all whitespace |
| `Text.TrimSplits` | src/pages/Index.tsx:41 | every string is a whitespace prefix, then its trim, then a whitespace suffix |
| `Text.TrimOfPadded` | src/pages/Index.tsx:41 | trimming a trimmed string padded with whitespace on both sides gives that string back (with `TrimSplits`, this determines `Trim`) |
| `Text.TrimIdempotent` | src/pages/Index.tsx:41 | trimming twice is trimming once |
| `Text.LowerChar` | src/pages/Index.tsx:72 | the lower-cased character is never an upper-case letter; other characters are kept; a letter moves by the ASCII case offset |
| `Text.ToLower` | src/pages/Index.tsx:72 | lower-casing keeps the length and lower-cases each character in place |
| `Text.ToLowerIdempotent` | src/pages/Index.tsx:72 | lower-casing an already lower-cased string changes nothing |
| `Text.Contains` | src/pages/Index.tsx:72 | `includes` by a left-to-right scan: a string never includes a longer one, and includes one of its own length only when the two are equal |
| `Text.ContainsIff` | src/pages/Index.tsx:72 | `includes` holds exactly when the query occurs at some position of the title |
| `Text.ContainsEmpty` | src/pages/Index.tsx:72 | every title includes the empty query |
| `Notes.IdsDecreasingOrdersAll` | src/pages/Index.tsx:26-27 | in a list whose ids fall from each note to the next, every earlier note has a larger id than every later one |
| `Notes.IdsDistinct` | src/pages/Index.tsx:26-27 | in such a list no two notes share an id |
| `Notes.Matches` | src/pages/Index.tsx:72 | the search test holds exactly when the lower-cased query occurs at some position of the lower-cased title |
| `Notes.Filter` | src/pages/Index.tsx:71-73 | the listed notes are at most the notes, every listed note is a note whose lower-cased title includes the lower-cased query, and every such note is listed |
| `Notes.FilterIsSubsequence` | src/pages/Index.tsx:71-73 | the listed notes are a subsequence of the notes, in their original order |
| `Notes.FilterEmptyQuery` | src/pages/Index.tsx:71-73 | an empty query lists every note unchanged |
| `Notes.FilterIgnoresQueryCase` | src/pages/Index.tsx:72 | filtering by a query and by its lower-cased form give the same list |
| `Notes.QueryIsNotTrimmed` | src/pages/Index.tsx:118 | the query is used as typed: "milk" finds a note titled "milk", " milk" does not |
| `Notes.FilterKeepsIdsDecreasing` | src/pages/Index.tsx:71-73 | filtering a list with falling ids gives a list with falling ids |
| `Notes.PrependNewest` | src/pages/Index.tsx:40-44 | putting a note with the counter's id and a trimmed non-empty title at the head keeps ids falling, below the raised counter, and titles trimmed |
| `RelativeTime.FormatTime` | src/pages/Index.tsx:61-69 | exactly one bucket applies: under a minute (including future times) is "Just now"; minutes are 1..59, hours 1..23, days at least 1; each count is the whole number of units elapsed (truncated) |
| `RelativeTime.FormatTimeMonotone` | src/pages/Index.tsx:61-69 | as the clock moves forward a caption never gets younger |
| `RelativeTime.DaysAreTruncated` | src/pages/Index.tsx:66-68 | 47 h 59 min reads "1d", and a millisecond short of a day reads "23h" |
| `Toast.Show` | src/pages/Index.tsx:52-59 | setting the flag shows the toast; from hidden it arms one timer for now + 1400 ms; when already shown nothing changes, so the old deadline stands |
| `Toast.Advance` | src/pages/Index.tsx:54-57 | when the clock reaches the deadline the toast hides and no timer is left; before that nothing changes |
| `Toast.Run` | src/pages/Index.tsx:52-59 | any sequence of shows and ticks keeps "timer pending exactly while shown" |
| `Toast.RunAppend` | src/pages/Index.tsx:52-59 | running two event sequences in turn is running their concatenation |
| `Toast.DeadlineStands` | src/pages/Index.tsx:52-59 | while shown, repeated shows and ticks before the deadline change nothing |
| `Toast.ShownForExactlyTheDelay` | src/pages/Index.tsx:52-59 | shown at time t from hidden, the toast stays up through every event before t + 1400 and is hidden by the first tick at or after it |
| `Screen.NotesScreen.constructor` | src/pages/Index.tsx:25-34 | the initial screen: notes with ids 2 and 1, counter 3, streak 3, toast hidden, sheet closed, empty draft and query; the invariant holds |
| `Screen.NotesScreen.AddNote` | src/pages/Index.tsx:36-50 | a due dismiss timer fires first on every call; then a blank draft changes nothing else; otherwise the new list is the note (old counter, trimmed draft, now) followed by the old notes, counter and streak rise by one, the toast is shown (arming a new timer if it was hidden), the sheet closes, the draft is cleared, the query is kept, and the invariant is preserved |
| `Screen.NotesScreen.Tick` | src/pages/Index.tsx:54-56 | the dismiss timer firing is the only way the toast hides; the rest of the screen is untouched |
| `Screen.NotesScreen.SetNewNoteText` | src/pages/Index.tsx:232 | the draft becomes the typed text; nothing else changes |
| `Screen.NotesScreen.SetSearchQuery` | src/pages/Index.tsx:118 | the query becomes the typed text, untrimmed; nothing else changes |
| `Screen.NotesScreen.SetSheetOpen` | src/pages/Index.tsx:101 | the sheet opens or closes; nothing else changes |
| `Screen.NotesScreen.FilteredNotes` | src/pages/Index.tsx:71-73 | the listed notes are an order-preserving subsequence of the notes, contain exactly the matching notes, keep falling ids, and are all the notes when the query is empty |

## Left out

- Rendering: the phone frame, status bar, "Hook Loop" strip, bottom navigation,
  tooltip badges, the sheet's markup and the `animationDelay` values
  (src/pages/Index.tsx:75-249) are presentation only. The `Button`, `Input`,
  `Sheet`, `Tooltip` and icon components come from UI libraries that are not
  part of this model.
- Wall-clock reads (`Date.now()`, `new Date()`): the current time is a `now`
  parameter in milliseconds, and a note's timestamp is an integer.
- Real `setTimeout`/`clearTimeout` and React's render and effect scheduling:
  the timer is the `deadline` of `Toast.ToastState`, and the clock reaching a
  time is the `Tick` method. Removing the timer when the component unmounts is
  not modelled, because the model has no unmount.
- `Text.ToLower`: lower-cases ASCII letters only, not the full Unicode mapping
  of `toLowerCase`.
- `RelativeTime.FormatTime`: returns the bucket and its number, not the caption
  text ("5m ago"); the integer is not turned into digits. The floating-point
  division `Math.floor(ms / 1000 / 60)` is modelled as integer floor division
  by 60000, which it equals for integer millisecond differences.
- The handlers' capture of state from the current render is not modelled: each
  operation reads the latest state, as happens when each event is handled
  after the previous one has been rendered.
