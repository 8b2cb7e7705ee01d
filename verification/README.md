# Task store of a browser to-do list, in Dafny

The to-do list keeps an ordered list of tasks. Each task has an `id`, a `text`, a
due `date` and an `isEditing` flag. The `Todo` class of `script.js` offers five
operations on the list:

- `addTask` trims the text and refuses it when its length is outside 3..255 or
  when its date lies before today. Otherwise it appends a task.
- `deleteTask` keeps only the tasks with another id.
- `enterEditMode` puts the task(s) with the id in edit mode and every other task out of it.
- `saveEdit` writes a trimmed text and a date into the first task with the id.
- `getFilteredTasks` shows every task for a search term shorter than 2 UTF-16 code units.
  Otherwise it shows the tasks whose text contains the term, ignoring case.

The model has five modules:

- `JsString` (`js_string.dfy`) holds the JavaScript string operations the store
  uses. `Utf16Length` is `length`, counted in UTF-16 code units. `Trim` is `trim`,
  over the full ECMAScript whitespace and line-terminator set. `ToLower` is
  `toLowerCase` on ASCII letters. `Includes` is `includes`.
- `Calendar` (`calendar.dfy`) reads the `YYYY-MM-DD` strings of a date input as calendar days.
- `Sequences` (`sequences.dfy`) models `Array.prototype.filter` and proves what filtering keeps.
- `TodoStore` (`todo_store.dfy`) holds the `Task` record and one function per
  operation. It also holds the class `Todo`. Its field `tasks` is a `seq<Task>`.
  Its field `searchTerm` is the live search term. The ghost field `stored` is what
  the last save wrote to the browser's storage. Each method of the class is proved
  to leave `tasks` equal to the function of its operation. The edit-mode loop and
  the `find` search are `while` loops with invariants.
- `TodoProperties` (`todo_properties.dfy`) proves what the operations promise. It
  also works through concrete cases: adding, refusing, searching and editing.

The clock is not read. The id of a new task (`Date.now()`) is the parameter
`now`. The current calendar day is the parameter `today`. An `alert` becomes a
returned `AddError`.

Two behaviours of the code are easy to miss:

- `enterEditMode` (script.js:89-94) does not save the list; it only redraws. So
  `EnterEditMode` leaves `stored` unchanged.
- `deleteTask` (script.js:84) filters out every task with the id, not only the
  first. `WithoutId` removes them all.

## Model

| member | source | states |
|---|---|---|
| `JsString.Utf16Length` | script.js:62 | `length` counts UTF-16 code units: between the number of characters and twice it, and zero only for the empty string |
| `JsString.Utf16LengthOfBmp` | script.js:62 | for text made only of Basic Multilingual Plane characters, `length` is the number of characters |
| `JsString.Utf16LengthOfChar` | script.js:62 | one character counts 2 code units when it lies outside the Basic Multilingual Plane (code point 0x10000 or more) and 1 otherwise |
| `JsString.Utf16LengthAppend` | script.js:62 | the length of a concatenation is the sum of the lengths |
| `JsString.Utf16LengthOfAstral` | script.js:62 | a text made only of characters outside the Basic Multilingual Plane has twice as many code units as characters |
| `JsString.IsWhitespace` | script.js:61 | every character `trim` strips is a single UTF-16 code unit |
| `JsString.Trim` | script.js:61 | the trimmed text neither starts nor ends with whitespace and is no longer than the input |
| `JsString.TrimSplits` | script.js:61 | the input is leading whitespace, then the trimmed text, then trailing whitespace |
| `JsString.TrimIsCore` | script.js:61 | whenever the input is whitespace, a core with no whitespace at either end, then whitespace, `trim` returns exactly that core |
| `JsString.TrimIdempotent` | script.js:99 | trimming an already trimmed text changes nothing |
| `JsString.ToLower` | script.js:112 | lower-casing keeps the length and maps each character on its own, A-Z to a-z |
| `JsString.ToLowerIdempotent` | script.js:112 | a lower-cased text has no upper-case ASCII letter, and lower-casing it again changes nothing |
| `JsString.ToLowerUtf16Length` | script.js:112 | lower-casing keeps the UTF-16 length |
| `JsString.Includes` | script.js:112 | the empty term is included in every text, and a term longer than the text is never included |
| `JsString.IncludesIff` | script.js:112 | `includes` holds exactly when the term occurs at some position of the text |
| `Calendar.ParseIsoDate` | script.js:66 | a string that denotes a day is read as a year 0..9999, a month 1..12 and a day 1..31 |
| `Calendar.ParseFormat` | script.js:66 | reading back the `YYYY-MM-DD` spelling of a day gives that day |
| `Calendar.FormatParse` | script.js:66 | every date string that denotes a day is the `YYYY-MM-DD` spelling of that day |
| `Sequences.Filter` | script.js:84 | `filter` never lengthens the array |
| `Sequences.FilterCount` | script.js:84 | `filter` keeps each element that passes the callback exactly as often as it occurs, and drops every other element |
| `Sequences.FilterIsSubsequence` | script.js:111-113 | `filter` keeps the original order: its result is a subsequence of its input |
| `Sequences.FilterPairwise` | script.js:84 | `filter` keeps any property that holds of every ordered pair of elements |
| `TodoStore.IsPastDate` | script.js:66 | a date counts as past only when it is the `YYYY-MM-DD` spelling of a day before today |
| `TodoStore.CheckNewTask` | script.js:61-69 | the length alert is raised exactly when the trimmed text is outside 3..255 code units; a task is accepted exactly when the trimmed length is in range and the date is not past |
| `TodoStore.NewTask` | script.js:71-76 | a new task has the given id and date, is not in edit mode, and its text is trimmed and no longer than the input |
| `TodoStore.WithoutId` | script.js:84 | no remaining task has the id, and the remaining tasks are a subsequence of the list |
| `TodoStore.EditMode` | script.js:90-92 | after entering edit mode, each task's flag is `id == task.id`; ids, texts, dates and the length are unchanged |
| `TodoStore.IndexOf` | script.js:97 | `find` picks the first task with the id, and finds nothing only when no task has it |
| `TodoStore.ApplyEdit` | script.js:97-101 | an edit keeps the length and every id, and changes no task other than the first one with the id |
| `TodoStore.MatchesSearch` | script.js:112 | a task matches exactly when the lower-cased term occurs at some position of its lower-cased text |
| `TodoStore.Filtered` | script.js:107-114 | the view is a subsequence of the list, and the whole list for a term shorter than 2 code units |
| `TodoStore.FindFirst` | script.js:97 | the linear search returns the position of the first task with the id, or nothing when no task has it |
| `TodoStore.Todo.constructor` | script.js:3-4 | the store starts with the tasks read from storage and an empty search term |
| `TodoStore.Todo.AddTask` | script.js:59-81 | returns the alert of `CheckNewTask`. On an alert, the list and storage stay unchanged. Otherwise it appends the task with id `now`, the trimmed text and the date, not in edit mode, and saves |
| `TodoStore.Todo.DeleteTask` | script.js:83-87 | the list becomes the tasks with another id, and is saved |
| `TodoStore.Todo.EnterEditMode` | script.js:89-94 | the list becomes `EditMode` of the old list; storage is not written |
| `TodoStore.Todo.SaveEdit` | script.js:96-105 | the list becomes `ApplyEdit` of the old list. It is saved only when a task has the id |
| `TodoStore.Todo.FilteredTasks` | script.js:107-114 | the getter returns `Filtered` of the live list and search term: a subsequence of the list, the whole list for a term shorter than 2 code units |
| `TodoProperties.DateFromTodayOnIsAccepted` | script.js:61-69 | a date spelled for today or a later day is never taken as past, and with a text of valid length the task is accepted |
| `TodoProperties.PastDayIsRejected` | script.js:66-69 | a valid text with a date before today raises the past-date alert |
| `TodoProperties.EmptyDateIsNeverPast` | script.js:66 | an empty date skips the date check: only the text length can refuse the task |
| `TodoProperties.AcceptedTextIsTrimmedBlock` | script.js:61-73 | an accepted task's text is the input without its surrounding whitespace: 3..255 code units, with no whitespace at either end |
| `TodoProperties.AddKeepsInvariants` | script.js:71-78 | appending keeps at most one task in edit mode, and keeps ids unique when the new id is fresh |
| `TodoProperties.DeleteKeepsExactlyOthers` | script.js:84 | deletion keeps exactly the tasks with another id, as often as before and in order; none with the id remains |
| `TodoProperties.DeleteAbsentIsNoOp` | script.js:84 | deleting an id no task has leaves the list as it is |
| `TodoProperties.DeleteTwiceIsDeleteOnce` | script.js:84 | deleting the same id twice gives the same list as deleting it once |
| `TodoProperties.DeleteKeepsInvariants` | script.js:84 | deletion keeps ids unique and at most one task in edit mode |
| `TodoProperties.EditModeSingle` | script.js:90-92 | with unique ids, at most one task is editing afterwards, and one is editing exactly when a task has the id |
| `TodoProperties.EditModeLastWins` | script.js:90-92 | entering edit mode for one id and then another is the same as entering it for the second alone |
| `TodoProperties.ApplyEditChangesFirstMatch` | script.js:97-101 | the edit replaces only the first task with the id. It gets the trimmed new text with no length check and the new date with no past check, and leaves edit mode |
| `TodoProperties.ApplyEditAbsentIsNoOp` | script.js:98 | an edit of an id no task has changes nothing |
| `TodoProperties.ApplyEditKeepsInvariants` | script.js:97-101 | an edit keeps ids unique and at most one task in edit mode |
| `TodoProperties.ShortTermShowsAll` | script.js:108-110 | a search term shorter than 2 code units shows the whole list, in order |
| `TodoProperties.SearchShowsExactlyMatches` | script.js:111-113 | a term of 2 or more code units shows exactly the tasks whose lower-cased text contains the lower-cased term, as often as in the list and in list order |
| `TodoProperties.SearchIgnoresTermCase` | script.js:112 | the case of the term's letters does not change the view |
| `TodoProperties.ViewKeepsSingleEditing` | script.js:111-113 | the view never shows two tasks in edit mode unless the list has two |
| `TodoProperties.ScenarioAddBuyMilk` | script.js:59-78 | adding "Buy milk" with no date is accepted and appends that task, not in edit mode |
| `TodoProperties.ScenarioAddTooShort` | script.js:62-64 | adding "ok" raises the length alert |
| `TodoProperties.ScenarioAddEmojiTooLong` | script.js:62-64 | a text of 128 emoji is 256 code units, so it raises the length alert although it has only 128 characters |
| `TodoProperties.ScenarioSearchBuy` | script.js:107-114 | searching "buy" over "Buy milk" and "Buy bread" shows both, in order |
| `TodoProperties.ScenarioEditTwice` | script.js:89-94 | entering edit mode for one task and then another leaves only the second editing |
| `TodoProperties.ShortEditText` | script.js:61-64 | the text " x " trims to "x", which `addTask` refuses with the length alert |
| `TodoProperties.PastEditDate` | script.js:66-69 | a date before today makes `addTask` raise the past-date alert |
| `TodoProperties.ScenarioEditSkipsValidation` | script.js:96-101 | an edit stores a one-letter text and a past date, which `addTask` would refuse |

## Left out

- The DOM: element lookups in the constructor, the event listeners and `draw` (script.js:6-12, 16-48, 116-150). This includes the regular-expression highlighting and the HTML string building. These are rendering and UI wiring.
- Reading and writing `localStorage` with `JSON.stringify`/`JSON.parse` (script.js:50-57). These are browser I/O. A save is modelled as the ghost field `stored` taking the value of `tasks`. The constructor takes the list it read as a parameter.
- `alert` (script.js:63, 67): the message is not shown; `AddTask` returns which alert it would raise.
- `Date.now()` and the current time (script.js:66, 72): the new id and the current calendar day are parameters.
- Time zones: the model compares calendar days. The source compares the UTC midnight of the entered date with local midnight of today. West of UTC this makes today's date count as past; that case is not modelled.
- Date strings other than four-digit `YYYY-MM-DD` are treated as invalid dates, and an invalid date never counts as past. Engines also accept other spellings, and they disagree about days past the end of a month (`2024-02-30`); the model reads such a day as it is written.
- `ToLower` only lower-cases the ASCII letters A-Z. JavaScript's `toLowerCase` applies full Unicode case mapping, which can change the length of a string.
- Strings are sequences of Unicode scalar values. JavaScript strings can hold unpaired surrogate code units, which cannot be expressed here.
- Tasks are values, not shared objects. The model does not capture that `getFilteredTasks` returns the `tasks` array itself, or that `enterEditMode` and `saveEdit` change task objects other code may also hold.
- The search term is set by the input listener (script.js:26-29), which is not part of this model. Callers assign the public field `searchTerm`.
- Whether `Date.now()` gives a fresh id is not guaranteed. `AddKeepsInvariants` takes freshness as a hypothesis. `EditModeSingle` needs unique ids: with repeated ids, several tasks can be in edit mode at once.
