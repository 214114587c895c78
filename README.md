# Habit tracker store, modelled in Dafny

This project models the state logic of a single-page habit tracker. The page keeps an
ordered collection of habits. Each habit has an id, a name, a numeric target, an icon
and a log of days, and each day carries a comment. One habit at a time is active. The
user adds habits and days through two forms, and deletes days by position. The whole
collection is written to browser storage after every change. On first run a bundled
snapshot is imported instead.

Modules, one per part of the program:

- `Habits` (habits.dfy): the records and the pure parts of the store. It holds the
  `find` lookup, the max-id fold that gives a new habit its id, the `map`/`concat`
  rebuild of `addDays`, `splice(index, 1)`, and the effect of `deleteDay` on the
  collection.
- `Header` (progress.dfy): the progress figure of the header, as a `real`.
- `Forms` (forms.dfy): `validateAndGetFormData`, written as a method with a loop over
  the required fields. It also tracks which fields carry the error mark.
- `Startup` (startup.dfy): which collection `loadData` ends with, and which habit the
  startup block renders first.
- `Tracker` (tracker.dfy): the page state as a class. Its fields are the collection,
  the active id, the stored blob and the error marks. Its methods are the event
  handlers and `rerender`. The class invariant `Saved()` says that storage mirrors the
  collection, so a reload reads back what is in memory when the collection is
  non-empty. An empty stored list sends a reload to the bundled snapshot again.

Ids are `int`, exact and unbounded (see `Habits.NextId` under "## Left out"). The URL fragment arrives as its `Number` conversion. An absent or empty
fragment converts to 0 and arrives as `Some(0)`, so a habit with id 0 is then chosen
over the first habit. `None` stands for a fragment whose `Number` is not an integer
(`NaN`, 1.5, `Infinity`), which equals no id.
The store compares ids loosely (`==`) in `find` and `map`, and with
`Number(...) ===` at startup. Both comparisons become plain integer equality here.

The model follows the code on these points:

- `addDays` rebuilds the collection with `map`. It appends the day to every habit
  that carries the active id, not only to the first one.
- `deleteDay` uses `find`, so it edits only the first such habit. With unique ids the
  two agree.
- Ids read from storage or from the snapshot are not checked, so they need not be
  positive or unique. Every handler is therefore proved to keep uniqueness when it
  held before, instead of assuming it as an invariant.
- When the snapshot is valid JSON but not a non-empty array, `loadData` leaves the
  collection as it was. At startup that is empty.

## Model

| member | source | states |
|---|---|---|
| Habits.Find | scripts/app.js:139 | the result is the position of the first habit with the given id; none exactly when no habit has it |
| Habits.Lookup | scripts/app.js:139-141 | a habit is found exactly when some habit has the id, and the habit found is the first one with that id |
| Habits.MaxIdFrom | scripts/app.js:199 | the `reduce` fold is at least its seed and every id, and equals the seed or one of the ids |
| Habits.NextId | scripts/app.js:199-200 | a new id is at least 1, above every existing id, and is 1 or one more than an existing id |
| Habits.NewHabitKeepsIdsUnique | scripts/app.js:199-208 | appending the new habit keeps the ids unique, and its id differs from every earlier id |
| Habits.NextIdExamples | scripts/app.js:199-200 | ids 1, 3 and 5 give the next id 6; an empty collection gives 1 |
| Habits.AddDays | scripts/app.js:163-171 | the `addDays` rebuild keeps length and order, appends the comment as the last day of each habit with the active id, and leaves every other habit unchanged |
| Habits.AddDaysKeepsIds | scripts/app.js:163-171 | `addDays` changes no id at any position, so unique ids stay unique |
| Habits.AddDaysWithoutMatch | scripts/app.js:163-171 | with no active id, or no habit carrying it, the collection is unchanged |
| Habits.Splice | scripts/app.js:181 | `splice(index, 1)` removes exactly the day at the index and shifts the later days down by one; an index at or past the end removes nothing |
| Habits.SpliceReinsert | scripts/app.js:181 | putting the removed day back at its index restores the original list |
| Habits.DeleteDayAt | scripts/app.js:177-181 | the `deleteDay` effect: only the first habit with the active id has its days spliced; length, order and every other habit are unchanged |
| Habits.DeleteDayKeepsIds | scripts/app.js:177-181 | `deleteDay` changes no id at any position, so unique ids stay unique |
| Habits.DeleteDayWithoutEffect | scripts/app.js:177-181 | with no active habit, or an index past its days, the collection is unchanged |
| Header.Progress | scripts/app.js:148-151 | the progress expression, 0 for a target of zero or less and otherwise the ratio times 100 cut at 100, always lies in [0, 100] |
| Header.ProgressBelowTarget | scripts/app.js:148-151 | up to the target, progress computed over exact reals is days / target x 100 |
| Header.ProgressFull | scripts/app.js:148-151 | with a positive target, progress is 100 exactly when the days reach the target |
| Header.ProgressMonotone | scripts/app.js:148-151 | more logged days never lower the progress |
| Header.ProgressExamples | scripts/app.js:148-151 | with target 10: 0 days give 0, 5 days give 50, 15 days give 100 |
| Forms.Validate | scripts/app.js:69-85 | success exactly when every required field is non-empty; on success the map holds exactly the required fields and their form values; afterwards exactly the empty required fields carry the error mark, and other fields keep theirs |
| Startup.Load | scripts/app.js:27-53 | a non-empty stored list is kept and not re-saved; otherwise a non-empty fetched list is adopted and saved; otherwise the collection is empty |
| Startup.LoadNonEmpty | scripts/app.js:27-53 | the loaded collection is non-empty exactly when the stored list or the fetched list is non-empty |
| Startup.InitialSelection | scripts/app.js:220-232 | nothing is selected exactly when the collection is empty; the fragment's id wins when a habit has it, otherwise the first habit's id; a selected id always names a habit |
| Tracker.ReloadRestores | scripts/app.js:28-30 | loading after a non-empty collection was saved gives back that collection, whatever the snapshot fetch yields |
| Tracker.Tracker.Start | scripts/app.js:217-233 | startup loads as `Load` says, saves an adopted snapshot, activates the `InitialSelection` id, and leaves storage mirroring the collection |
| Tracker.Tracker.Select | scripts/app.js:137-155 | `rerender(id)` always makes the id active and changes nothing else; it shows a habit exactly when one has the id, with that habit's progress, which lies in [0, 100] |
| Tracker.Tracker.SubmitDay | scripts/app.js:158-175 | an empty comment marks the field and changes nothing else; a valid one applies `addDays` to the active id and saves; the active id is unchanged and unique ids stay unique |
| Tracker.Tracker.SubmitHabit | scripts/app.js:194-214 | an invalid form only updates the marks; a valid one appends exactly one habit, with id `NextId` and no days, at the end, saves it and makes it active; the new id is fresh and unique ids stay unique |
| Tracker.Tracker.DeleteDay | scripts/app.js:177-184 | the collection becomes the `deleteDay` splice of the active habit; storage is rewritten only when an active habit exists; unique ids stay unique |

## Left out

- Rendering of the menu, header, content and popup (`rerenderMenu`, `rerenderHead`,
  `rerenderContent`, `togglePopup`, `setIcon`, `resetForm`). This is presentation over
  browser objects. `Select` returns only the habit and the progress that a render shows.
- Browser storage, `JSON.parse`/`JSON.stringify`, `fetch` and `async`/`await`. The
  stored blob is the list it parses to, and serialising it is taken as an exact round
  trip. The fetch is given as its outcome (`Startup.Fetch`).
- Startup.Load: a stored blob that is not valid JSON makes the program throw outside
  its `try`, which aborts startup. A blob that parses to a non-array is also not
  modelled. Only an absent blob or a parsed list is taken.
- Rewriting the URL fragment with `document.location.replace`, and reading the
  fragment text. The fragment arrives already read as a number.
- Header.Progress: the ratio is computed exactly over `real`. The program computes the
  division and the multiplication at scripts/app.js:148-149 in binary64 floating point,
  rounding twice, so 57 days of a target of 100 give 56.99999999999999 there, and that
  is the width it writes. The `toFixed(0)` display rounding and the CSS width string are
  not modelled either. `ProgressBelowTarget` is exact only in the model; the bounds,
  `ProgressFull` and `ProgressMonotone` also hold in floating point.
- Habits.NextId: ids are exact unbounded integers. In the program ids are JavaScript
  numbers, and at or above 2^53 `maxId + 1` rounds back to `maxId`, so a new id would
  repeat an existing one. The program never creates such an id itself, but ids read
  from storage or the snapshot are unchecked. The freshness and uniqueness proved by
  `NextId`, `NewHabitKeepsIdsUnique` and `Tracker.Tracker.SubmitHabit` assume exact
  integer ids.
- Tracker.Tracker.SubmitHabit: `Number(data.target)` is a parameter `toNumber` that
  returns an integer, so a target that reads as `NaN` or as a fraction is not modelled.
- Forms.Validate: `FormData.get` returning `null` for a missing field and `""` for an
  empty one are both read as the empty string, since both are falsy and neither is
  ever returned. A required field with no element in the form is treated like an empty
  field. In the program, `form[field].classList` then throws a TypeError, which aborts
  the handler before the later fields are processed and before anything is saved;
  that abort is not modelled.
- Console logging, and loose `==` coercion between string and number ids. Ids are
  integers throughout.
