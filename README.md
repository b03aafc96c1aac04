# Yoga studio site: schedule service, schedule grids, contact form, hero carousel

A Dafny model of the parts of the yoga studio website that have behaviour
worth stating:

- **Schedule documents** (`ScheduleModel`). A time slot has a required `time` string and a `classes`
  record with exactly the seven day keys Mon..Sun. Each day holds an optional entry of
  optional `name`, `location` and `type` strings. The module also models schema validity
  and update bodies.
- **Schedule routes** (`ScheduleRoutes`). `GET /` lists the collection. `PUT /:id` updates one
  document by id and emits `scheduleUpdated` once on success. The collection and its
  emission counter are a class (`ScheduleStore`) with a `map` from id to document; its
  `Update` method changes them in place.
- **Card colours** (`CardColors`). `getCardColorClass`, the same switch in both grids.
- **Admin editor** (`AdminScheduleEditor`). The grid of slots is an `array`.
  `handleInputChange` and `handleSelectChange` are methods that change one slot in place,
  creating a missing day entry empty first. The module also gives the inputs each cell shows.
- **Public schedule** (`ScheduleViewer`). Cell classification (class card, 'Rest' or 'N/A'),
  the icon choice, and the row and column order of the rendered grid.
- **Contact form** (`JsStrings`, `EmailRegex`, `ContactForm`). The white space that `trim`
  removes. The unanchored email test `/\S+@\S+\.\S+/`, given as a pattern and as a one-pass
  scanner proved equal to it. `validateForm`, `handleChange`, and the
  '' → 'error' / '' → 'loading' → 'success' status sequence of `handleSubmit`.
- **Hero carousel** (`HeroCarousel`). `activeIndex` starts at 0 and each tick moves it to
  `(i + 1) % 3`; exactly one image is shown at a time.

Modelling choices:

- **Failures are inputs.** Whether the database can be reached is a boolean parameter
  (`reachable`) of the store operations. Nothing else about the database, the network or
  timers is modelled.
- **Update bodies.** A body is a `Patch`, and each top-level path of it is handled on its own:
  - A path the body omits keeps its value.
  - A supplied `time` replaces the stored one; a `null` `time` removes it.
  - A supplied `classes` object replaces the whole week, so any day it leaves out becomes absent.
- **Validation order.** Update validators run only on the supplied paths, and they run before the
  database is queried. An invalid body is therefore rejected with 400 even when the id does not exist.
- **The required check.** Mongoose's `required` on a String path rejects a missing value, `null`
  and the empty string.

Three facts about the code shape the model:

- The PUT handler answers 400 for every error thrown inside its `try` block, a database
  failure included (`server/routes/scheduleRoutes.js:33-35`).
- The public schedule grid fills its state once from built-in data and never fetches again
  (`client/src/components/ScheduleSection.jsx:17-75`). It has no socket listener, so the
  emission is modelled only on the server side: as a counter, plus a ghost log of the table
  at each emission.
- The admin editor's save is simulated (`client/src/components/AdminScheduleSection.jsx:112-125`)
  and never sends a `PUT`. The editor and the store are therefore independent in the model.

No route creates documents, so the documents the store starts with were written outside
the program and may fail the schema (a document without `time`, say). The store therefore
does not assume validity: it lists such documents, and updates them as Mongoose does,
validating only the supplied paths. `UpdateOutcome` and `UpdateFrame` hold for any table;
`UpdateKeepsValid` and the matching clause of `ScheduleStore.Update` say that an update keeps a
collection of valid documents valid.

## Model

| member | source | states |
|---|---|---|
| ScheduleModel.DayIndex | server/models/Schedule.js:11-19 | every day has one position in the fixed Mon..Sun order, and different days have different positions |
| ScheduleModel.ClassEntry.WithField | client/src/components/AdminScheduleSection.jsx:88-91 | setting one of the three optional paths of an entry gives it that value and leaves the other two as they were |
| ScheduleModel.Classes.With | client/src/components/AdminScheduleSection.jsx:103-106 | replacing one day's entry (or removing it) leaves the other six days as they were |
| ScheduleModel.ClassesExtensional | server/models/Schedule.js:11-19 | a week is determined by its seven day keys: two weeks that agree on every day are equal |
| ScheduleModel.MissingTimeIsInvalid | server/models/Schedule.js:10 | a slot whose `time` is missing or empty fails the schema |
| ScheduleModel.ClassesNeverAffectValidity | server/models/Schedule.js:3-19 | validity depends on `time` alone: no day entry, optional path or `type` value (the schema has no enumeration) changes it, so there is no cross-record or cross-field constraint |
| ScheduleModel.PatchValidIffResultValid | server/routes/scheduleRoutes.js:20-24 | on a valid stored document, the update validators accept the body exactly when the updated document satisfies the schema |
| ScheduleModel.AbsentPathsKeepValues | server/routes/scheduleRoutes.js:20-24 | top-level paths the body omits keep their stored values; the empty body changes nothing |
| ScheduleModel.ApplyIdempotent | server/routes/scheduleRoutes.js:20-24 | applying the same body twice gives the same document as applying it once |
| ScheduleRoutes.ListStatus | server/routes/scheduleRoutes.js:8-14 | a listing answers 200 exactly when it succeeded and 500 exactly when the database failed |
| ScheduleRoutes.UpdateStatus | server/routes/scheduleRoutes.js:25-35 | an update answers 200 exactly on success, 404 exactly when no document has the id, and 400 for every other error, a database failure included |
| ScheduleRoutes.UpdateOutcomeCases | server/routes/scheduleRoutes.js:19-27 | an update succeeds iff the body passes validation, the database is reachable and the id is stored; it is a validation error iff the body fails validation; not found iff the body is valid, the database is reachable and the id is absent; a store failure iff the body is valid and the database is unreachable |
| ScheduleRoutes.UpdateFrame | server/routes/scheduleRoutes.js:20-27 | on any table, a failed update leaves the table unchanged; a successful one returns the post-update document, writes it at the given id only, and keeps the set of ids |
| ScheduleRoutes.UpdateKeepsValid | server/routes/scheduleRoutes.js:20-24 | on a table of valid documents, an update keeps every document valid, and a successful reply is a valid document |
| ScheduleRoutes.UpdateTwiceSameAsOnce | server/routes/scheduleRoutes.js:20-30 | a second identical update gives the same reply as the first and leaves the table as the first left it |
| ScheduleRoutes.ScheduleStore.List | server/routes/scheduleRoutes.js:8-14 | an unreachable database gives the failure; otherwise the reply holds every stored document, each exactly once, in collection order, with its stored fields; the store is not changed |
| ScheduleRoutes.ScheduleStore.constructor | server/routes/scheduleRoutes.js:10 | the store holds the given documents, any documents with distinct ids and valid or not, in the given order, and nothing has been emitted |
| ScheduleRoutes.ScheduleStore.Update | server/routes/scheduleRoutes.js:18-36 | the reply and the new table are those of the update outcome; ids and order are kept; if every document was valid, every document stays valid and a successful reply is valid; `scheduleUpdated` is emitted exactly once on success, after the write (the log entry is the written table), and never on failure |
| ScheduleRoutes.UpdateTwice | server/routes/scheduleRoutes.js:18-32 | sending the same update twice gives two equal replies and the table of one update, keeps the collection order, and when it succeeds emits twice, both log entries being the final table |
| CardColors.CardColorClass | client/src/components/AdminScheduleSection.jsx:127-138 | Personal, Online and Special Program each get their own style, and every other type (empty, 'Rest', missing, anything else) gets the gray default; the public grid's switch at client/src/components/ScheduleSection.jsx:77-88 is the same function |
| AdminScheduleEditor.SetEntryField | client/src/components/AdminScheduleSection.jsx:87-91 | after `classes[day][field] = value` the day has an entry whose `field` is `value`; its other paths are as before, or absent if the entry was just created; `time` and the other days are untouched |
| AdminScheduleEditor.EditInput | client/src/components/AdminScheduleSection.jsx:84-97 | without a day only `time` changes (to the value); with a day only that day's `field` changes |
| AdminScheduleEditor.ScheduleEditor.constructor | client/src/components/AdminScheduleSection.jsx:64 | the editor's grid is a new array holding the initial slots, in order |
| AdminScheduleEditor.ScheduleEditor.InputChange | client/src/components/AdminScheduleSection.jsx:84-97 | the slot array keeps its length, and only slot `slotIndex` changes, to the slot that `EditInput` gives |
| AdminScheduleEditor.ScheduleEditor.SelectChange | client/src/components/AdminScheduleSection.jsx:100-109 | the slot array keeps its length, and only the `type` of the day's entry of slot `slotIndex` changes, the entry being created empty if missing |
| AdminScheduleEditor.EditorCellOf | client/src/components/AdminScheduleSection.jsx:182-206 | the text inputs are disabled exactly for a Rest entry and then both show 'Rest'; otherwise they show the name and location or nothing; a missing entry reads as `{}`; the select shows the type or nothing; the card style is that type's |
| AdminScheduleEditor.SelectingRestDisablesCell | client/src/components/AdminScheduleSection.jsx:183-206 | choosing Rest in a cell's select disables both of its text inputs, which then show 'Rest' in the gray style, whatever the entry held before |
| ScheduleViewer.ViewCellOf | client/src/components/ScheduleSection.jsx:215-241 | a cell is a (joinable) class card exactly when the entry exists, has a non-empty name and is not Rest; the card shows the name and location, has the video icon exactly when the location is 'Zoom', and the style of its type; any other cell reads 'Rest' exactly for a Rest entry and 'N/A' otherwise |
| ScheduleViewer.CellsOf | client/src/components/ScheduleSection.jsx:215-244 | one cell per column, column `j` holding the classification of the slot's entry for day `j` |
| ScheduleViewer.RowOf | client/src/components/ScheduleSection.jsx:209-244 | a row shows the slot's time and seven cells, the cell for each day at that day's Mon..Sun position |
| ScheduleViewer.Render | client/src/components/ScheduleSection.jsx:204-246 | one row per slot, in data order |
| ScheduleViewer.JoinableCellsAreAvailableClasses | client/src/components/ScheduleSection.jsx:216-225 | in the rendered grid, the cell at row `i`, day `d` has the join handler exactly when that slot's entry for `d` is an available class |
| ScheduleViewer.EditorAndViewerAgreeOnRest | client/src/components/ScheduleSection.jsx:216-240 | the admin grid disables exactly the cells that the public grid labels 'Rest', and those are never joinable |
| JsStrings.TrimStartIsSuffix | client/src/components/ContactSection.jsx:24 | removing leading white space keeps a suffix, drops only white space and leaves a string that is empty or starts with a non-space |
| JsStrings.TrimEndIsPrefix | client/src/components/ContactSection.jsx:24 | removing trailing white space keeps a prefix, drops only white space and leaves a string that is empty or ends with a non-space |
| JsStrings.TrimEmptyIffBlank | client/src/components/ContactSection.jsx:24-32 | `!s.trim()` holds exactly when every character of `s` is white space |
| EmailRegex.PatternIsNotBlank | client/src/components/ContactSection.jsx:25-29 | a string that matches the email pattern is never blank, so a blank email only ever gets the 'required' message |
| EmailRegex.PatternSurvivesSurroundingText | client/src/components/ContactSection.jsx:27 | the test is unanchored: any text before and after a matching string still matches |
| EmailRegex.ScanPrefixMeaning | client/src/components/ContactSection.jsx:27 | after each prefix, every component of the scanner's state holds exactly when its meaning holds of that prefix |
| EmailRegex.ScanEmailIsPattern | client/src/components/ContactSection.jsx:27 | the one-pass scanner accepts exactly the strings that contain a non-space run, '@', a non-space run, '.', and a non-space run |
| ContactForm.FormData.With | client/src/components/ContactSection.jsx:18 | field `id` takes the value and the other four fields are unchanged |
| ContactForm.ErrorMap | client/src/components/ContactSection.jsx:22-32 | each field has an entry exactly when its own test fails, with that field's message; the email entry is 'required' when empty and 'invalid' otherwise |
| ContactForm.FormErrorsMeaning | client/src/components/ContactSection.jsx:24-32 | name, phone and message have errors exactly when blank; the program exactly when empty (no trimming); the email exactly when it does not match the pattern, with 'required' exactly when it is blank and 'invalid' exactly when it is not |
| ContactForm.NoErrorsIffEveryRuleHolds | client/src/components/ContactSection.jsx:22-34 | the error map is empty exactly when name, phone and message are not blank, the email matches and a program is selected |
| ContactForm.ShownError | client/src/components/ContactSection.jsx:168 | a control shows a message exactly when its error entry is a non-empty string, and shows that string |
| ContactForm.ContactSection.constructor | client/src/components/ContactSection.jsx:6-14 | the form starts with all five fields empty, status '' and no errors, with no status set yet |
| ContactForm.ContactSection.Change | client/src/components/ContactSection.jsx:16-20 | only field `id` changes; only its error changes, to the empty string, so it shows nothing; every other error shown stays as it was; the status is untouched |
| ContactForm.ContactSection.Validate | client/src/components/ContactSection.jsx:22-35 | the errors become the error map of the current form, and the result is true exactly when that map is empty |
| ContactForm.ContactSection.Submit | client/src/components/ContactSection.jsx:37-44 | invalid data sets 'error' and never 'loading'; valid data sets 'loading'; the fields are untouched and the errors are those of the form |
| ContactForm.ContactSection.Resolve | client/src/components/ContactSection.jsx:45-48 | after 'loading' the status becomes 'success' and all five fields are reset to the empty string |
| ContactForm.SubmitValidForm | client/src/components/ContactSection.jsx:37-48 | a valid submission from the initial status sets exactly 'loading' then 'success', and ends in 'success' with an empty form and no errors |
| HeroCarousel.Next | client/src/components/HeroSection.jsx:16-18 | a tick stays in [0, n), moves to the next position, and wraps from n-1 to 0 |
| HeroCarousel.Advance | client/src/components/HeroSection.jsx:14-19 | after at least one tick the index is in [0, n) |
| HeroCarousel.AdvanceWithinRange | client/src/components/HeroSection.jsx:17 | ticks that do not reach the end move the index forward by their number |
| HeroCarousel.AdvanceWraps | client/src/components/HeroSection.jsx:17 | from position `i`, the `n - i`-th tick wraps to the first image |
| HeroCarousel.AdvanceCycle | client/src/components/HeroSection.jsx:17 | n ticks bring every position back to itself |
| HeroCarousel.AdvanceAdds | client/src/components/HeroSection.jsx:14-19 | `j` ticks followed by `k` ticks are `j + k` ticks |
| HeroCarousel.ShownFlags | client/src/components/HeroSection.jsx:93-99 | one flag per image, set exactly for the image whose position equals the index |
| HeroCarousel.ExactlyOneImageShown | client/src/components/HeroSection.jsx:98-99 | with the index in range, the set of shown images is exactly the one at the index |
| HeroCarousel.Carousel.constructor | client/src/components/HeroSection.jsx:11 | the index starts at 0 |
| HeroCarousel.Carousel.Tick | client/src/components/HeroSection.jsx:16-18 | a tick sets the index to `(i + 1) % 3` and keeps it in [0, 3) |
| HeroCarousel.RunTicks | client/src/components/HeroSection.jsx:11-18 | from the initial index, after `k` ticks the index is in [0, 3) and equals `k % 3` |

## Left out

- Server wiring (`server/server.js`): Express, the HTTP server, CORS, dotenv and the MongoDB connection. These are I/O plumbing; the database's reachability is a parameter instead.
- Delivery of `scheduleUpdated` to sockets, reconnects, and races between concurrent `PUT`s. Emission is a counter plus a ghost log on the store; each call runs alone.
- The `_id` of every day entry: `classSchema` is a full schema, so each stored entry carries its own `_id`. `ClassEntry` leaves it out, as `TimeSlot` leaves out the document's `_id` (the store keys documents by id).
- Mongoose casting. A malformed id (an ObjectId cast error, also answered 400), `_id` or unknown paths in the body, dotted paths such as `classes.Mon.name`, and operator bodies are not modelled. A body is a top-level `Patch`. `UpdateOutcome` checks validation first and then the id, so those errors fall under validation or not-found.
- Database errors after a write: `StoreFailure` stands for a failure before anything is written, so a failed update leaves the table unchanged. The model does not capture an error reported after the write reached the server, which would answer 400 and emit nothing but leave the document changed.
- Type casting of body values: other types coerced to strings, or `classes` not being an object. A `Patch` carries strings and classes records already.
- `ScheduleRoutes.ScheduleStore.List`: what order `Schedule.find()` returns is left to the database. The model uses the order in which the store was built.
- The AdminJS configuration and authentication in `server/admin/admin.js`: a foreign library and password hashing. Its property list does not describe the schedule schema.
- Timers and promises: the simulated fetches, the simulated admin save and its `isSaving` flag, the contact form's delay, and the interval's scheduling and cleanup. `Resolve` stands for the delay completing.
- The `catch` branch of `handleSubmit`: the simulated delay never rejects, so that branch cannot be reached.
- `ContactForm.ContactSection.Submit`: it does not require the status to differ from 'loading'. The source only disables the button then, and does not guard the handler.
- `ContactForm.ContactSection.Change`: the `id` of the changed control is one of the five fields. No other id can reach the handler.
- Aliasing in the admin editor. The source copies the slot array shallowly, then mutates shared slot objects; the model's `ScheduleEditor` owns its array.
- JavaScript strings are sequences of UTF-16 code units, and Dafny's `char` is a Unicode scalar value. Unpaired surrogates are not modelled. `\s`, `\S` and `trim` use the ECMAScript white-space and line-terminator set.
- Animations, styling other than the card colour classes, DOM effects (`scrollIntoView`, `alert`, `window.open`) and the static sections. They have no stated logic.
- The built-in dummy schedule arrays: they are data, not behaviour.
