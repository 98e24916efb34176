# Training timetable: a Dafny model of the allocator and the conflict audit

This project models the core of a small timetabling application for a training
centre. The centre has trainers, who have a weekly capacity in teaching slots and a
comma-separated list of subjects they teach. It has subjects, each with a weekly load
and a preferred block length. Each working day, Sunday to Thursday, shares one grid of
six fifty-minute slots with ten-minute breaks, from 08:00 to 13:50.

The model covers the following parts:

- **Time grid** (`timegrid.dfy`, module `TimeGrid`): the days and the slot constants of
  `scheduler.py`. It generates the grid, renders times as `HH:MM` and parses them back. The lemma
  `FormatTimeOrder` shows that comparing two rendered times as strings agrees with
  comparing them as minutes. The application compares the stored `"HH:MM"` strings, and
  the model compares minutes. This lemma is the bridge between the two.
- **Text** (`text.dfy`, module `Text`): the parts of Python's string behaviour the core
  relies on.
  - `str.strip` uses Python's whitespace set.
  - `lower()` is modelled for ASCII letters only.
  - `split(",")` and `", ".join`.
  - Substring search.
  - `_normalize`.
- **Records** (`records.dfy`, module `Records`): the trainer, subject and schedule-entry
  records of `models.py`, `Trainer.list_experience`, and the per-trainer profiles of the
  allocator.
- **Audit** (`audit.dfy`, module `Audit`): `_overlaps`, `_annotate_entries` and
  `_detect_conflicts` of `app.py`. The audit is proved equal, as a multiset, to a
  reference definition that lists every overlapping pair once (`AllPairs`).
- **Admission** (`admission.dfy`, module `Admission`): the checks of the two editing
  routes `update_schedule_entry` and `create_schedule_entry`. The result is the accepted
  entry or the reason for refusal. An accepted edit keeps a conflict-free timetable
  conflict-free.
- **Column recognition** (`columns.dfy`, module `Columns`): `_normalize_columns`, which
  recognises the columns of an uploaded sheet.
- **Orders** (`ordering.dfy`, module `Ordering`):
  - the subject plan, sorted by weekly load and lower-cased name, descending and stable;
  - the eligible trainers, sorted by current load, stable;
  - the pick of the first trainer that still has capacity.
- **Allocator** (`placement.dfy`, `allocator.dfy`, modules `Placements` and
  `Allocator`): `auto_schedule` with the database replaced by parameters and results.
  - The trainers and the subjects are inputs.
  - The rows it would insert are returned as placements, each being a trainer, a subject,
    a day index, a first slot and a length.
  - The method also returns the count and the warnings.
  - The main contract, `Allocator.AutoSchedule`:
    - No two placed blocks share a cell.
    - Every block lies inside one day.
    - A subject gets at most one block per day.
    - The conflict audit finds nothing in the produced rows.
    - Every block went to a qualified trainer that had capacity left, with no more load
      than any other such trainer.
    - Every block is `min(block_size, slots_remaining)` long: the subject's block size, or
      what is still missing of its weekly load when that is less.
    - No subject gets more than it needs.
    - A subject ends short exactly when a warning names it.
    - No subject is warned about twice.
    - The subjects with a positive load are served in plan order, most hours first: the
      blocks and the warnings come subject by subject in that order.

Entries store their times as minutes since midnight. `TimeGrid.FormatTime` renders the
stored string.

### Behaviour of the code worth knowing

- **Capacity is checked before a block, not after it.** `scheduler.py:134` tests
  `assigned < capacity` and `scheduler.py:181` then adds the whole block, so a trainer's
  load can pass its capacity. Example: a trainer with capacity 1 who receives a 2-slot
  block ends at load 2. The model proves the bound the code does keep
  (`Allocator.LoadCapped`): a trainer is only chosen while below capacity, so the final
  load is below the capacity plus the length of one of that trainer's blocks.
- **One warning per unplaceable subject.** When no free block of the needed length is
  left, the code emits one "insufficient slots" warning and moves to the next subject
  (`scheduler.py:188-192`). `AutoSchedule` proves that no subject is warned about twice.
- **The update route's day.** The update route does not check the submitted day against
  the working days (`eng/training_schedule/app.py:217`). The create route does check it
  (`eng/training_schedule/app.py:294`). Both are modelled as written.
- **The trainer-busy check is unreachable.** In both routes, an entry that makes the
  trainer busy is also an entry of the same day that overlaps the block. The earlier
  "slot taken" query therefore already refuses the request. `Admission.Place` proves that
  the trainer-busy refusal is never produced.

## Model

| member | source | states |
|---|---|---|
| Text.Strip | eng/training_schedule/models.py:27 | `str.strip()` leaves no whitespace at either end of its result, and the result is never longer than the input |
| Text.StripCut | eng/training_schedule/models.py:27 | the stripped text is an infix of the input, and everything cut off around it is whitespace |
| Text.StripTrimmed | scheduler.py:16 | stripping a text without outer whitespace leaves it unchanged |
| Text.StripKeepsOut | eng/training_schedule/models.py:27 | stripping adds no character, so a comma-free field stays comma-free |
| Text.StripAfterSpace | eng/training_schedule/app.py:408 | a leading blank, as the `", "` separator leaves after splitting on commas, disappears when stripped |
| Text.LowerTrimmed | scheduler.py:16 | lower-casing a trimmed text keeps it trimmed and leaves no upper-case letter |
| Text.Lower | scheduler.py:16 | lower-casing keeps the length, turns each ASCII upper-case letter into its lower-case partner and keeps every other character |
| Text.Normalize | scheduler.py:15-16 | `_normalize` returns a trimmed text with no upper-case letter and no longer than its input, and returns the empty text for a missing value |
| Text.NormalizeIdempotent | scheduler.py:15-16 | normalizing an already normalized name changes nothing, so `list_experience` items and subject names meet in the same form |
| Text.NormalizeFixes | scheduler.py:15-16 | a text that is already trimmed and has no upper-case letter is its own normal form, so `_normalize` is not a constant |
| Text.NormalizeInsensitive | scheduler.py:15-16 | lower-casing a name first does not change its normal form, so names that differ only in ASCII case meet |
| Text.NormalizePadded | scheduler.py:15-16 | whitespace added before or after a name does not change its normal form |
| Text.ContainsOccurs | eng/training_schedule/app.py:369 | Python's `sub in s` holds exactly when `sub` occurs at some position of `s` |
| Text.Split | eng/training_schedule/models.py:27 | `split(",")` gives at least one field, no field contains the separator, and joining the fields with the separator gives back the text |
| Text.SplitJoin | eng/training_schedule/models.py:27 | splitting the join of separator-free items gives back exactly those items |
| Text.SplitNoSeparator | eng/training_schedule/models.py:27 | a text without the separator splits into itself alone |
| Text.LexLessIrreflexive | eng/training_schedule/app.py:504 | no stored time string is below itself |
| Text.LexLessTransitive | eng/training_schedule/app.py:504 | the string order used on stored times is transitive |
| Text.LexLessTotal | eng/training_schedule/app.py:504 | of two different time strings one is below the other |
| TimeGrid.DaysDistinct | scheduler.py:8 | there are five working days and no two have the same label |
| TimeGrid.GenerateFrom | scheduler.py:19-27 | the generator yields the requested number of slots; slot i starts i times (slot plus break) after the start and lasts one slot length |
| TimeGrid.TimeSlots | scheduler.py:19-27 | `get_time_slots` gives six slots; the first starts at the start time, each lasts one slot length and the next starts one break after it ends |
| TimeGrid.ParseTime | scheduler.py:20 | `strptime` with `"%H:%M"` accepts a two-digit hour below 24 and a two-digit minute below 60, giving a time of the day |
| TimeGrid.StartTimeParsed | scheduler.py:9-20 | the start time text `"08:00"` parses to 480 minutes, the grid's start |
| TimeGrid.ParseFormatTime | scheduler.py:20-25 | parsing the `%H:%M` rendering of a time of the day gives that time back |
| TimeGrid.FormatParseTime | scheduler.py:20-25 | rendering a parsed time gives back the text that was parsed |
| TimeGrid.TimeSlotsShape | scheduler.py:198-201 | the canonical grid has six slots, 08:00-08:50 through 13:00-13:50, one an hour; they are non-empty, increasing, separated and inside one day |
| TimeGrid.BlockTimes | scheduler.py:171-172 | a block of `size` slots from slot `s` starts at 08:00 plus s hours and ends ten minutes before the hour after its last slot |
| TimeGrid.FormatTime | scheduler.py:25 | `strftime("%H:%M")` produces five characters with the colon in the middle |
| TimeGrid.FormatTimeOrder | eng/training_schedule/app.py:504 | one rendered time is below another as a string exactly when it is earlier in minutes |
| TimeGrid.FormatTimeInjective | scheduler.py:25 | two different times of the day never render as the same string |
| Records.KeepStrippedNoComma | eng/training_schedule/models.py:27 | items kept from comma-free fields are comma-free |
| Records.KeepStrippedItems | eng/training_schedule/models.py:27 | an item is kept exactly when it is the non-empty stripped form of some field |
| Records.KeepStrippedBlank | eng/training_schedule/models.py:27 | nothing is kept exactly when every field strips to the empty text |
| Records.KeepStrippedAppend | eng/training_schedule/models.py:27 | the comprehension treats fields one at a time and keeps their order |
| Records.KeepStrippedEach | eng/training_schedule/models.py:27 | fields that strip to non-empty items yield exactly those items, in order |
| Records.ListExperience | eng/training_schedule/models.py:24-27 | a missing or empty experience lists nothing; every listed item is non-empty, has no outer whitespace and contains no comma |
| Records.JoinCommaSpace | eng/training_schedule/app.py:408 | joining with `", "` is joining with `","` after prefixing every item but the first with a blank |
| Records.KeepSpaced | eng/training_schedule/app.py:407-408 | stripping the blank-prefixed clean items gives back the items |
| Records.ListExperienceJoin | eng/training_schedule/app.py:407-408 | clean items stored with `", ".join` are listed again by `list_experience` as exactly the same items in the same order |
| Records.JoinNonEmpty | eng/training_schedule/app.py:408 | a join whose first item is non-empty is a non-empty experience text |
| Records.Profiles | scheduler.py:82-91 | one profile per trainer in roster order, with the trainer's id and a capacity that is never negative and equals `weekly_hours` when that is not negative; the subject set holds exactly the normalized listed experience items, and every member of it is a non-empty, trimmed, lower-case name |
| Records.Skills | scheduler.py:30-31 | the trainer teaches exactly the normalized listed experience items: each of them is in the set and every member comes from one; each such subject is a non-empty, trimmed, lower-case name; a missing or empty experience teaches nothing |
| Records.SkillsOfImport | eng/training_schedule/app.py:407-408 | a trainer whose experience was stored as the `", "` join of clean items teaches exactly the normalized forms of those items |
| Allocator.ProfilesUnique | scheduler.py:82-91 | the profiles of a roster with unique trainer ids have unique ids, so each trainer's `assigned` count is kept once |
| Records.BlockSize | scheduler.py:103 | the preferred block length is at least 1, equals `daily_slots` whenever that is at least 1, and is 1 when `daily_slots` is missing, zero or negative |
| Columns.MentionsEach | eng/training_schedule/app.py:369-376 | each role is recognised by exactly the English and Arabic keywords of its rule |
| Columns.Classify | eng/training_schedule/app.py:367-376 | a header that gets a role mentions one of that role's keywords in its stripped lower-cased text; a header that gets none mentions no keyword of any role |
| Columns.ClassifyFirstMatch | eng/training_schedule/app.py:367-376 | a header gets no role exactly when no rule's keyword occurs in its stripped lower-cased text; otherwise it gets the first rule in order that has such a keyword |
| Columns.NormalizeColumns | eng/training_schedule/app.py:365-377 | the mapping holds exactly the recognised headers of the sheet, each with its role |
| Audit.OverlapsAsStored | eng/training_schedule/app.py:501-504 | for times inside one day, the overlap test on minutes equals the source's test on the stored `HH:MM` strings |
| Audit.OverlapsFacts | eng/training_schedule/app.py:501-504 | overlap is symmetric, never holds across days, and blocks that only touch do not overlap |
| Audit.OverlapsShared | eng/training_schedule/app.py:501-504 | two entries with non-empty time ranges overlap exactly when they are on one day and some minute lies in both ranges |
| Audit.LastIndexOf | eng/training_schedule/app.py:461-462 | a lookup dict built from an enumeration finds the last index holding the key, and finds nothing when no index holds it |
| Audit.LastIndexOfOnly | eng/training_schedule/app.py:461-464 | a key that occurs at exactly one index is found at that index |
| Audit.Annotate | eng/training_schedule/app.py:460-467 | the duration is at least one slot; the start index is the last grid slot starting at the entry's start, or 0 when there is none; when the last slot ending at the entry's end is not before the start slot the duration reaches it, otherwise it is one slot; an unknown end gives one slot |
| Audit.AnnotateBlock | eng/training_schedule/app.py:460-467 | an entry spanning grid slots s to s+d-1 is shown at slot s with a duration of d slots |
| Audit.AnnotateEntries | eng/training_schedule/app.py:460-467 | every entry gets its own annotation in list order, at least one slot long, at slot 0 or at a grid slot that starts at the entry's start |
| Audit.DayOrderCovers | eng/training_schedule/app.py:480-482 | the day groups list each day once and include the day of every entry |
| Audit.DetectConflictsAllPairs | eng/training_schedule/app.py:480-498 | the grouped nested loops report the same conflicts, with the same multiplicities, as the list of every overlapping pair of entries |
| Audit.DetectConflictsSpec | eng/training_schedule/app.py:470-498 | every reported conflict is an overlapping pair in list order; with distinct entries every overlapping pair is reported exactly once; nothing is reported exactly when no two entries overlap, and in particular for no entries |
| Audit.RecordKind | eng/training_schedule/app.py:489-496 | a conflict is a trainer conflict exactly when both entries have the same trainer, and carries its day |
| Admission.Proposed | eng/training_schedule/app.py:234-235 | the requested block starts at its first slot's start and ends at its last slot's end, inside one day |
| Admission.FirstOverlap | eng/training_schedule/app.py:237-248 | the overlap query finds nothing exactly when no entry overlaps the block; what it finds is an overlapping entry |
| Admission.OfTrainer | eng/training_schedule/app.py:250-259 | the trainer query looks at exactly the entries of that trainer |
| Admission.Others | eng/training_schedule/app.py:239 | the update query looks at exactly the entries other than the edited one |
| Admission.Place | eng/training_schedule/app.py:226-262 | a start outside the grid is refused as an invalid slot, and a block past the day's end as exceeding the day; a fitting block is accepted exactly when nothing overlaps it, and the trainer-busy refusal never occurs |
| Admission.AdmitCreate | eng/training_schedule/app.py:276-345 | creation either refuses for one of the create route's reasons or accepts an entry with the new id |
| Admission.CreateRefusals | eng/training_schedule/app.py:280-296 | creation refuses an invalid form exactly when the subject or trainer id is missing, and refuses an unknown reference exactly when the subject or trainer does not exist or the day is not a working day |
| Admission.CreateAccepted | eng/training_schedule/app.py:289-345 | an accepted entry refers to an existing subject and trainer on a working day, carries the submitted ids and the stripped section, and overlaps no existing entry |
| Admission.FindEntry | eng/training_schedule/app.py:204 | the lookup finds an entry exactly when one has the id, and what it finds has that id |
| Admission.AdmitUpdate | eng/training_schedule/app.py:203-273 | an update either refuses for one of the update route's reasons or accepts an entry with the edited id |
| Admission.UpdateNotFound | eng/training_schedule/app.py:204 | an update is refused as not found exactly when no entry has the id |
| Admission.UpdateAccepted | eng/training_schedule/app.py:208-269 | an accepted update refers to an existing subject and trainer, takes each unsubmitted field from the stored entry, strips the section, and overlaps no other entry |
| Admission.AcceptedBlock | eng/training_schedule/app.py:226-235 | an accepted entry occupies the requested block of the grid, and the timetable view shows it at the requested slot with the requested length |
| Admission.Replace | eng/training_schedule/app.py:264-271 | the table keeps its length and every row keeps its id; a table with no row of the edited id is left unchanged |
| Admission.ReplaceOne | eng/training_schedule/app.py:264-271 | in a table with unique ids, the update changes exactly the row with the edited id: as a multiset the old row leaves and the new one arrives, and ids stay unique |
| Admission.CreateKeepsConflictFree | eng/training_schedule/app.py:309-345 | adding an accepted entry to a conflict-free timetable leaves it conflict-free, and the audit reports nothing |
| Admission.UpdateKeepsConflictFree | eng/training_schedule/app.py:237-271 | replacing an entry by an accepted update of it keeps a conflict-free timetable conflict-free, and the audit reports nothing |
| Placements.ApartCells | scheduler.py:34-48 | two blocks are apart exactly when no slot of the day is a cell of both |
| Placements.ToEntry | scheduler.py:167-173 | a placed block becomes a row on its day label, starting at its first slot's start and ending at its last slot's end |
| Placements.EntriesOf | scheduler.py:167-178 | one row per placed block in creation order, numbered from one, on the block's day label, with its trainer and subject, from its first slot's start to its last slot's end, with an empty section |
| Placements.ApartIffNoOverlap | eng/training_schedule/app.py:501-504 | two placed blocks share no cell exactly when their rows do not overlap |
| Placements.EntriesConflictFree | scheduler.py:167-178 | rows produced from blocks that fit the grid and share no cell contain no overlapping pair, and the audit reports nothing about them |
| Ordering.KeyLessIrreflexive | scheduler.py:95 | no subject's sort key is below its own |
| Ordering.KeyLessTransitive | scheduler.py:95 | the plan's sort key order is transitive |
| Ordering.InsertDescending | scheduler.py:93-97 | inserting into a plan in descending key order keeps it in order and adds exactly that subject |
| Ordering.SortPlan | scheduler.py:93-97 | the plan is in descending order of (weekly load, lower-cased name) and is a permutation of the subjects |
| Ordering.SortPlanStable | scheduler.py:93-97 | the subjects that share any one sort key appear in the sorted plan in the order they had in the input |
| Ordering.SortPlanOrdered | scheduler.py:93-97 | a list already in plan order is left exactly as it is |
| Ordering.Positive | scheduler.py:72 | the subjects kept are exactly those with a positive weekly load |
| Ordering.PositiveUnique | scheduler.py:72 | filtering keeps subject ids and names unique |
| Ordering.PermutationUnique | scheduler.py:93-97 | reordering keeps subject ids and names unique |
| Ordering.InsertByLoad | scheduler.py:129 | inserting into an order ascending by load keeps it ascending and adds exactly that trainer |
| Ordering.SortByLoad | scheduler.py:129 | sorting by load gives an ascending permutation of the trainers |
| Ordering.SortByLoadKeepsTies | scheduler.py:129 | the trainers that share any one load appear in the sorted order in the order they had before |
| Ordering.SortByLoadStable | scheduler.py:122-129 | re-sorting an order already ascending by load changes nothing, so the sort before the loop is subsumed by the one inside it |
| Ordering.PickTrainer | scheduler.py:130-137 | the pick is the first trainer in order with load below capacity, and there is none exactly when no trainer has room |
| Ordering.PickLeastLoaded | scheduler.py:129-137 | in a load-sorted order, the picked trainer has no more load than any trainer with room |
| Allocator.BlockAvailable | scheduler.py:34-48 | a block is available exactly when none of its cells is occupied and the trainer is busy in none of them |
| Allocator.FitsAt | scheduler.py:148-165 | a cell offset that passes the scan's tests starts a block inside one day, on a day the subject does not use yet, that is available |
| Allocator.ScanForBlock | scheduler.py:147-165 | the scan returns the first fitting offset in cyclic order from the cursor, and returns nothing exactly when no offset of the week fits |
| Allocator.CommitCells | scheduler.py:175-178 | marking a free block's cells keeps the blocks disjoint and inside the grid, and keeps the occupancy tables a record of them |
| Allocator.CommitLoads | scheduler.py:181 | adding the block's length to the chosen trainer keeps every `assigned` equal to that trainer's placed slots |
| Allocator.BusyIsOccupied | scheduler.py:157-165 | while the tables record the run, a block is available exactly when its cells are unoccupied |
| Allocator.Eligible | scheduler.py:109-113 | the eligible trainers are exactly those whose subject set holds the normalized subject name |
| Allocator.ChoiceIsFair | scheduler.py:129-137 | the picked trainer is qualified, has load below capacity, and has no more load than any qualified trainer with room |
| Allocator.PlaceAt | scheduler.py:167-186 | placing the found block appends it for the picked trainer with length `min(block_size, slots_remaining)`, at the scan's first fit, marks the day used, reduces what remains by its length, moves the cursor to the cell after it, and keeps the run consistent |
| Allocator.StepKeeps | scheduler.py:167-185 | recording a fairly chosen free block keeps the tables, loads, day usage and the subject's history consistent |
| Allocator.PlaceBlock | scheduler.py:126-192 | one round of the loop either places a fairly chosen block and reduces what remains, or changes nothing and stops with a warning. The list is re-sorted by load, and a placed block goes to the first trainer with room in that order, at the first fitting offset going round the week from the cursor; the cursor then moves to the cell after the block, and the block's day becomes used; the capacity warning comes only when every qualified trainer is at capacity, and the slots warning only when a qualified trainer has room yet no free run of the needed length is left on any day the subject does not use |
| Allocator.PlaceSubject | scheduler.py:101-192 | one subject gets fairly chosen blocks on distinct days, each `min(block_size, slots_remaining)` long, no more than it needs. There is a warning about it exactly when it ends short. The no-trainer warning comes exactly when no trainer is qualified, the capacity warning only when every qualified trainer is full, and the slots warning only when a qualified trainer has room but no free run of the needed length is left on an unused day |
| Allocator.ServeStep | scheduler.py:101-192 | when one more plan subject is served after the earlier ones and its blocks and warning are appended, every block and warning still belongs to a subject served so far, and they still come subject by subject in plan order |
| Allocator.PlacePlan | scheduler.py:99-192 | walking the whole plan, every block is fairly chosen for a planned subject and is `min(block_size, slots_remaining)` long, no subject exceeds its need, short subjects are exactly the warned ones and each is warned about once; the no-trainer warning names exactly the subjects no trainer is qualified for, and every capacity or slots warning had its cause at some point of the run. The blocks and the warnings come subject by subject in plan order: a block or warning about a later plan subject never precedes one about an earlier subject |
| Allocator.LoadBound | scheduler.py:129-181 | if a trainer was below capacity whenever one of its blocks was placed, its final load is below its capacity plus the length of one of its blocks |
| Allocator.AllCapped | scheduler.py:129-181 | in a run of fairly chosen blocks every trainer's load is capped that way |
| Allocator.AutoSchedule | scheduler.py:51-195 | the count equals the placed blocks. With no trainers or no loaded subjects the run only warns. Blocks fit the grid, share no cell and fall one per subject per day, so the audit finds no conflict. Each block went to a fairly chosen qualified trainer and is `min(block_size, slots_remaining)` long at the time it is placed. Loads stay below capacity plus one block. No subject exceeds its need, short subjects are exactly the warned ones, and no subject is warned about twice. A subject is warned that no trainer is qualified exactly when none is; a capacity warning means every qualified trainer was full at some point of the run, and a slots warning means a qualified trainer had room while no free run of the needed length was left on a day the subject did not use. The blocks and the warnings come subject by subject in the order of `SortPlan(Positive(subjects))`, most hours first, then lower-cased name descending |

## Left out

- Flask routing, redirects, flash message texts, the SQLAlchemy session and queries,
  pandas, Excel import and export, page rendering and the grouping of entries for
  display. The model receives the rows as lists and returns the rows to insert or the
  reason for refusal. Refusals and warnings are enumerations; the message strings are not
  modelled.
- `_process_excel_dataframe` and the rest of `app.py` outside the functions named above.
  The only part of the import modelled is the `", ".join` of experience items
  (`Records.ListExperienceJoin`). The set union and sorting done before that join are not
  modelled.
- Admission.AdmitUpdate: the form fields are modelled as already parsed integers. The
  `int()` failure on a non-numeric field, which refuses the request, is not modelled. For
  the create route, only the missing identifier is modelled as the invalid-form refusal.
- Admission.FirstOverlap: the database's `.first()` returns an unspecified overlapping
  row. The model returns the first in list order, and only whether one exists affects
  the outcome.
- Text.Lower: only ASCII letters are lower-cased. Python's `lower()` also maps non-ASCII
  letters. The Arabic names and keywords of the application have no case.
- Allocator.AutoSchedule: does not state that a trainer's load stays within its
  capacity, because the code does not keep that (see above). It states the bound the
  code does keep, `LoadCapped`.
- Allocator.AutoSchedule: does not state at which cell each block starts. The first-fit
  rule and the cursor's move are stated per round, in `PlaceBlock` and `PlaceAt`; the
  cursor is not carried into the whole run's contract.
- Allocator.AutoSchedule: the trainers and subjects are parameters in list order, in
  place of the database query. Unique trainer ids, subject ids and subject names are
  required, as the primary keys and the unique name column guarantee. Deleting the old
  schedule and inserting the new rows are not modelled. The rows' ids are numbered from
  one only for the audit statement.
- The first `eligible_trainers.sort` (`scheduler.py:122`) is not performed separately.
  `Ordering.SortByLoadStable` shows that the sort inside the loop gives the same order.
- The ordering of entries by day and start time in `_detect_conflicts`'s query is not
  modelled. The audit is stated for any list order.
- The trainer's `name` in a profile is not carried, because the allocator never reads it.
- Times are minutes since midnight. `TimeGrid.ParseTime` models `strptime` with
  `"%H:%M"` only for the two-digit form the application writes. It does not accept the
  one-digit hours and minutes that `strptime` also accepts.
