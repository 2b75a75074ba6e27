# Notepad client: note-state synchroniser

This project models the state logic of the notepad client's `App` component
(`src/App.tsx`). The component holds four state slots: the list of `notes`,
the `selectedNote` (or none), the `isLoading` flag and the `error` message.
Four handlers update them:

- `fetchNotes` reloads the list from the note store;
- `fetchNote(id)` fetches one note and selects it;
- `deleteNote(id)` deletes a note in the store, then drops it from the list;
- `createNote(name, description)` rejects a blank name, posts the note, then
  reloads the list.

The network is not modelled. Each store request becomes a parameter holding
the store's reply (`Sync.Reply`): a parsed body, a response whose status was
not ok (with its status text), or a thrown exception (with its message).
Each handler also returns the list of requests it issued (`Sync.Request`).
Each handler is one atomic step.

Files:

- `notes.dfy` (module `Notes`): the `Note` record; `WithoutId`, the filter
  that `deleteNote` applies; `Trim`, JavaScript's `String.prototype.trim`.
- `sync.dfy` (module `Sync`): a `State` snapshot and one step function per
  handler, which are the specification; class `App`, whose fields are the
  four state slots and whose methods perform each handler field by field.
  Each method is proved to produce exactly what its step function says.
- `trace.dfy` (module `Trace`): runs of any sequence of handler calls, and
  invariants that every run keeps.

Some of the component's behaviour may not be what a reader expects. The
model follows the code in each case:

- A successful `fetchNotes` selects the first loaded note even when a note
  is already selected, not only when nothing is selected.
- `fetchNotes` never clears `error`, and neither does a successful `fetchNote` or `deleteNote`.
  Only `createNote` clears it, and only for a non-blank name.
- `fetchNote` never touches `isLoading`: loading a single note does not
  raise the flag. Only `fetchNotes` raises and lowers it.
- A reload that returns an empty list keeps the previous selection. That
  note may no longer be in `notes`.
- When the POST of `createNote` returns a non-ok status, the message is
  `"Failed to create note: Failed to create note: "` followed by the status text.
  The code adds the prefix twice: once when it throws and once when it catches.
  A thrown network error carries the prefix only once.
- If the reload after a successful POST fails, `fetchNotes` catches that
  failure itself. The error is then `"Failed to load notes"`, and
  `createNote`'s own catch does not run.

## Model

| member | source | states |
|---|---|---|
| Notes.WithoutId | src/App.tsx:73 | The filtered list is shorter than the old one by exactly the number of notes with the deleted id (`CountId`). |
| Notes.WithoutIdMembers | src/App.tsx:73 | A note is in the filtered list exactly when it was in the old list and its id differs from the deleted id. |
| Notes.WithoutIdAbsent | src/App.tsx:73 | When no note has the id, the filtered list equals the old list and no note is counted. |
| Notes.KeptIncreasing | src/App.tsx:73 | `Kept` (the positions of the notes whose id differs from the deleted id) lists its positions in strictly ascending order. |
| Notes.KeptMembers | src/App.tsx:73 | A position of the list is in `Kept` exactly when the note there has an id other than the deleted one. |
| Notes.WithoutIdKeepsOrder | src/App.tsx:73 | The filtered list is the old list read at the positions `Kept` lists, in that order (`ReadAt`). With `KeptIncreasing` and `KeptMembers`, every other note stays and they keep their relative order. |
| Notes.WithoutIdCommutes | src/App.tsx:73 | Filtering out one id and then another gives the same list in either order. |
| Notes.TrimStartSpec | src/App.tsx:85 | `TrimStart` gives a suffix of the name. Everything it drops is JavaScript whitespace, and its result does not start with whitespace. |
| Notes.TrimEndSpec | src/App.tsx:85 | `TrimEnd` gives a prefix of the name. Everything it drops is JavaScript whitespace, and its result does not end with whitespace. |
| Notes.TrimSpec | src/App.tsx:85 | `Trim` gives a slice of the name that neither starts nor ends with whitespace. It is empty exactly when every character is whitespace. |
| Sync.FetchNotesStep | src/App.tsx:24-45 | Loading ends false. On success, `notes` is exactly the loaded sequence and `error` is unchanged. A non-empty load selects its first note, whatever was selected before; an empty load keeps the selection. On failure, `notes` and the selection are unchanged and the error is "Failed to load notes". |
| Sync.FetchNoteStep | src/App.tsx:47-61 | `notes` and `isLoading` never change. On success, the returned note is selected and `error` is unchanged. On failure, the selection is unchanged and the error is "Failed to fetch note". |
| Sync.DeleteNoteStep | src/App.tsx:63-82 | On success, `notes` is the filtered list `WithoutId`, no listed note has the deleted id and every other note remains. The length drops by the number of notes with that id. The selection becomes none exactly when it was the deleted note; otherwise it is unchanged. On failure, `notes` and the selection are unchanged and the error is "Failed to delete note". `isLoading` never changes. |
| Sync.CreateFailure | src/App.tsx:103-110 | A non-ok POST gives "Failed to create note: Failed to create note: " plus the status text. A thrown error gives the prefix once, plus its message. |
| Sync.CreateNoteStep | src/App.tsx:84-112 | A name that is blank after trimming only sets "Note name cannot be empty.". For a valid name with a successful POST, the result is `fetchNotes` run on the state with `error` cleared. For a failed POST, `notes`, the selection and `isLoading` are unchanged, and the error is `CreateFailure` of the reply. |
| Sync.CreateNoteRequests | src/App.tsx:84-107 | There are no store requests exactly when the name is blank. Otherwise the first request is the POST of the name and description. A list request follows exactly when the POST succeeded. There are at most two requests. |
| Sync.BlankNameRejected | src/App.tsx:85-88 | A name made only of whitespace changes only the error, to "Note name cannot be empty.". It issues no store request. |
| Sync.DeleteKeepsOrder | src/App.tsx:73 | After a successful deletion, `notes` is the old list read at the ascending positions `Kept` lists, so the remaining notes keep their relative order. |
| Sync.DeleteNotesCommute | src/App.tsx:73-77 | Two successful deletions lead to the same state in either order. |
| Sync.App.constructor | src/App.tsx:18-21 | The initial state has no notes, no selection, `isLoading` true and an empty error. |
| Sync.App.FetchNotes | src/App.tsx:24-45 | The new state is `FetchNotesStep` of the old state. The only request is the list request. |
| Sync.App.FetchNote | src/App.tsx:47-61 | The new state is `FetchNoteStep` of the old state. The only request is the GET of that id. |
| Sync.App.DeleteNote | src/App.tsx:63-82 | The new state is `DeleteNoteStep` of the old state. The only request is the DELETE of that id. |
| Sync.App.CreateNote | src/App.tsx:84-112 | The new state is `CreateNoteStep` of the old state. The requests issued are `CreateNoteRequests`, and the reload is done by calling `FetchNotes`. |
| Trace.LoadingSettles | src/App.tsx:24-45 | Once `isLoading` is false, or once a run begins with `fetchNotes`, it is false after any sequence of handler calls. |
| Trace.ErrorStaysKnown | src/App.tsx:39-111 | `error` only ever holds "", one of the four fixed messages, or a message starting with "Failed to create note: ". |
| Trace.NotesComeFromStore | src/App.tsx:35-107 | After any run, every listed note and the selected note were there before or came from the reply to a request the run issued. A blank-name create receives nothing. No handler inserts a note locally. |
| Trace.NotesFromInitialComeFromStore | src/App.tsx:18-19 | Starting from the initial state, every listed or selected note came from a store reply. |

## Left out

- The `fetch` calls, the base URL, `response.json()` parsing and the
  console logging are I/O. The store's reply is a parameter of each handler,
  and the requests are returned as values.
- `formatDate` depends on the JavaScript `Date` and locale formatting
  libraries.
- Async interleaving. Overlapping `fetchNote` calls, where the last reply
  wins, are not modelled. Neither is the stale `notes` closure that
  `deleteNote` filters. Each handler runs as one atomic step on the current
  state.
- The JSX rendering, the markdown rendering and the `useEffect` that runs
  `fetchNotes` on mount. These are presentation; the mount load is the first
  `FetchNotesOp` of a run.
- `src/components/AddNoteModal.tsx` (dialog state, and a second blank-name
  check in the form) and `src/components/NoteCard.tsx` (presentation only).
- Note ids are mathematical integers. JavaScript numbers are floating point;
  `NaN` and fractional ids are not modelled.
- A list body that is not a JSON array is not modelled. The parsed list
  reply is a sequence of notes.
- The body of a single-note GET is taken to be a note. The code stores
  whatever `response.json()` returns (src/App.tsx:55-56); a body of another
  shape is not modelled.
- `Trim` works on Unicode scalar values (Dafny characters), while JavaScript
  strings are UTF-16 code units, so a lone surrogate cannot be represented.
