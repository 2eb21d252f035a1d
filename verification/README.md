# Hospital theatre scheduling: knowledge store, conflict detector and validators

This project models the core of a hospital theatre scheduler in Dafny. The scheduler keeps surgeons,
theatres, time slots, surgeries and patients in an OWL ontology. It answers schedule queries,
creates and deletes entities (a deleted surgery takes its patients with it), and runs a conflict
detector. The detector reports surgeons, theatres and patients booked for two overlapping surgeries,
plus surgeries whose surgeon is not authorised for the required theatre. A few input validators
round it off.

The model has these modules:

- `TimeOfDay` covers time handling.
  - It has the three time formats the detector tries in turn: `%H:%M`, `%H:%M:%S`, `%I:%M %p`. Each follows the rules of Python's `strptime`, after stripping surrounding whitespace.
  - It has the half-open, same-day overlap test on two (start, end) pairs.
  - It has renderers for the three formats, which serve as the parsers' inverses.
- `Store` is the ontology: one ordered sequence of individuals.
  - Each individual has a name, the set of classes it belongs to, and its data and object properties. Every property is a list; a link is the name of the individual it points to.
  - It has exact lookup by name and class enumeration in store order.
  - `Put` models `Class(name)`: it reuses an existing individual of that name or appends a new one.
  - `Destroy` models owlready2's `destroy_entity`. It removes the individuals and scrubs their names from every link list.
  - It has the cascading delete of a surgery with its patients.
- `Manager` holds the schedule views and the `OntologyManager` class.
  - The class has one field, `onto`, which its methods update in place.
  - The query methods build their result lists in loops. Each method is proved equal to a specification function, and the lemmas state what those functions return.
- `Reasoner` holds the four scans as specification functions, and the `ConflictDetector` class.
  - The class's methods carry the nested `i < j` pair loops, proved equal to those functions.
  - Lemmas state what each scan reports: exactly the overlapping pairs, nothing else, and at most n(n-1)/2 records.
- `Validators` has the four input checks.
  - The date check is Python's `strptime` with the pattern `%Y-%m-%d`, within the range of Python's `date`: years 1 to 9999, Gregorian month lengths and leap years.
  - Every `YYYY-MM-DD` naming a real day from year 1 on is accepted and read back as that day (`Validators.ParseFormattedDate`). Year 0000 is refused.
  - The check is looser than `YYYY-MM-DD`: `%m` and `%d` also take a one-digit month or day, and `%d` takes a blank before a one-digit day (`Validators.OneDigitMonthAndDay`, `Validators.BlankPaddedDay`).

### Behaviour of the code the model keeps

- **One-way overlap edge.** ontology/main.py:50 and test ontologies/claude.py:107 declare `has_temporal_overlap` with `symmetric = True`. The ontology the application builds declares it at ontology/create_ontology.py:250 without that flag. The code only checks whether the second surgery's slot is in the first slot's list (ontology/reasoner.py:205). `Reasoner.OverlapEdgeIsOneWay` shows a pair of surgeries for which the result depends on the argument order.
- **Same-day comparison.** Overnight slots are compared as same-day clock values, as the code does (`TimeOfDay.OvernightSlotIsSameDay`).
- **Midnight parses.** A time that parses to midnight counts as parsed: Python 3.5 and later treat every `time` value as true in the `all(...)` test.

## Model

| member | source | states |
|---|---|---|
| TimeOfDay.Field | ontology/reasoner.py:225 | a `%H`/`%M`/`%I` field is one or two ASCII digits and its value lies in the field's range |
| TimeOfDay.StripTrims | ontology/reasoner.py:225 | stripping yields the input minus all leading and trailing whitespace, and leaves no whitespace at either end |
| TimeOfDay.ParseFormattedHourMinute | ontology/reasoner.py:221-228 | every `HH:MM` rendering of a valid time parses back to that time of day, through the first format |
| TimeOfDay.ParseFormattedHourMinuteSecond | ontology/reasoner.py:221-228 | every `HH:MM:SS` rendering parses back to that time, through the second format |
| TimeOfDay.ParseFormattedTwelveHour | ontology/reasoner.py:221-228 | every `hh:MM AM/PM` rendering parses back to the 24-hour time it stands for, through the third format |
| TimeOfDay.ParseTimeFallsThrough | ontology/reasoner.py:223-227 | a stripped string that neither 24-hour format accepts is read by the 12-hour format |
| TimeOfDay.ParseTwelveHourPieces | ontology/reasoner.py:223-225 | an hour 1-12, two-digit minutes and an AM/PM marker denote the 24-hour time `Hour24(h, pm)` |
| TimeOfDay.SecondsRenderingAgrees | ontology/reasoner.py:221-228 | `HH:MM` and `HH:MM:00` denote the same time |
| TimeOfDay.TwelveHourRenderingAgrees | ontology/reasoner.py:221-228 | the 12-hour and 24-hour renderings of a time denote the same time |
| TimeOfDay.OverlapIsHalfOpen | ontology/reasoner.py:238-239 | two well-formed slots overlap iff start1 < end2 and start2 < end1, in minutes of the day |
| TimeOfDay.OverlapSymmetric | ontology/reasoner.py:230-239 | swapping the two (start, end) pairs never changes the answer |
| TimeOfDay.UnparsableNeverOverlaps | ontology/reasoner.py:235-236 | if any of the four strings fails to parse, the slots do not overlap |
| TimeOfDay.TouchingSlotsDoNotOverlap | ontology/reasoner.py:239 | 09:00-10:00 and 10:00-11:00 do not overlap |
| TimeOfDay.OverlappingSlotsOverlap | ontology/reasoner.py:239 | 08:00-10:30 and 10:00-12:30 overlap |
| TimeOfDay.OvernightSlotIsSameDay | ontology/reasoner.py:239 | 22:45-01:15 is compared as a same-day range, so it does not overlap 23:00-23:30 |
| Store.SearchOne | ontology/ontology_manager.py:30-32 | the lookup finds something iff the name is in the store, and what it finds is in the store under that name |
| Store.Deref | ontology/ontology_manager.py:57-59 | following a link yields the stored individual of that name, or an empty individual for a dangling name |
| Store.Instances | ontology/ontology_manager.py:26-48 | the members of a class are exactly the stored individuals having that class |
| Store.UniqueCounts | ontology/ontology_manager.py:340-359 | with unique names, the store's size is its number of names and each class's instance count is the number of names among its members |
| Store.Put | ontology/ontology_manager.py:93 | declaring a name adds that name and no other, and grows the store only when the name is new |
| Store.PutFinds | ontology/ontology_manager.py:93 | after declaring, a lookup of the name yields the declared individual |
| Store.PutKeeps | ontology/ontology_manager.py:93 | declaring one name leaves every other name's individual unchanged |
| Store.PutSame | ontology/ontology_manager.py:93 | re-declaring an individual as it is leaves the store unchanged |
| Store.PutKeepsWellFormed | ontology/ontology_manager.py:93 | declaring keeps names unique and links within the store |
| Store.Remove | ontology/ontology_manager.py:173 | scrubbing a link list keeps exactly the links to surviving names |
| Store.RemoveTwice | ontology/ontology_manager.py:167-173 | scrubbing twice equals scrubbing once with both sets of names |
| Store.ScrubTwice | ontology/ontology_manager.py:167-173 | removing references twice equals removing them once with both sets of names |
| Store.ScrubLinksWithin | ontology/ontology_manager.py:173 | after scrubbing, a record links only to names that survive |
| Store.DestroyNames | ontology/ontology_manager.py:173 | destroying removes exactly the doomed names from the store |
| Store.DestroyNothing | ontology/ontology_manager.py:173 | destroying no names changes nothing |
| Store.DestroyTwice | ontology/ontology_manager.py:167-173 | two destroys in a row equal one destroy of both sets |
| Store.DestroyKeeps | ontology/ontology_manager.py:173 | every survivor stays in the store, with its links to destroyed names removed |
| Store.DestroyOnly | ontology/ontology_manager.py:173 | every record after a destroy is a scrubbed survivor |
| Store.DestroyKeepsUnique | ontology/ontology_manager.py:173 | destroying keeps names unique |
| Store.DestroyKeepsWellFormed | ontology/ontology_manager.py:173 | destroying keeps every link pointing into the store |
| Store.DestroyEachIsDestroy | ontology/ontology_manager.py:287-294 | destroying names one at a time equals destroying them all at once |
| Store.PatientsOf | ontology/ontology_manager.py:164-165 | the patients listed for a surgery are exactly the patients whose surgery list contains it |
| Store.UndergoingAfterDestroy | ontology/ontology_manager.py:218-219 | the patients found after earlier destroys are the survivors among the patients of the surviving surgeries |
| Store.UndergoingUnion | ontology/ontology_manager.py:218-219 | the patients of two surgery sets are the union of each set's patients |
| Store.CascadeOne | ontology/ontology_manager.py:216-226 | one step of the per-surgery delete loop equals deleting that surgery with its patients |
| Store.CascadeAllIsDestroy | ontology/ontology_manager.py:216-226 | if no listed surgery is itself a patient of a listed surgery, the delete loop equals one destroy of the surgeries and all their patients |
| Manager.FirstPatient | ontology/ontology_manager.py:312-316 | finds a patient undergoing the surgery, or none iff no patient undergoes it |
| Manager.SurgeriesInSlot | ontology/ontology_manager.py:246-247 | lists exactly the names of the surgeries whose first time slot is the given slot |
| Manager.OntologyManager.constructor | ontology/ontology_manager.py:12-21 | the manager holds the loaded store |
| Manager.OntologyManager.GetAll | ontology/ontology_manager.py:26-48 | returns exactly the members of the class, at most as many as the store holds |
| Manager.OntologyManager.GetSurgeonByName | ontology/ontology_manager.py:30-32 | finds something iff the name is in the store, and it is the stored individual of that name |
| Manager.OntologyManager.GetSurgeonSchedule | ontology/ontology_manager.py:50-66 | the loop builds the surgeon's schedule, as `SurgeonScheduleContents` describes |
| Manager.OntologyManager.GetTheatreSchedule | ontology/ontology_manager.py:68-85 | the loop builds the theatre's schedule, as `TheatreScheduleContents` describes |
| Manager.OntologyManager.GetScheduleInfo | ontology/ontology_manager.py:304-336 | the loop builds the surgery's details, as `ScheduleInfoContents` describes |
| Manager.OntologyManager.GetOntologySummary | ontology/ontology_manager.py:341-359 | no per-class count exceeds the total number of individuals; on a well-formed store the total is the number of distinct names and each class count is the number of distinct names among its members |
| Manager.OntologyManager.AddSurgeon | ontology/ontology_manager.py:89-105 | succeeds and leaves the store as `AddSurgeonEffect` describes; the store stays well formed |
| Manager.OntologyManager.AddSurgery | ontology/ontology_manager.py:107-135 | succeeds and leaves the store as `AddSurgeryEffect` describes; the store stays well formed |
| Manager.OntologyManager.AddTimeslot | ontology/ontology_manager.py:137-150 | succeeds and leaves the store as `AddTimeslotEffect` describes; the store stays well formed |
| Manager.OntologyManager.Create | ontology/ontology_manager.py:93 | declares the named individual of the class and keeps the store well formed |
| Manager.OntologyManager.DestroyEntity | ontology/ontology_manager.py:173 | destroys one individual and keeps the store well formed |
| Manager.OntologyManager.DestroyAll | ontology/ontology_manager.py:287-294 | destroying a list one name at a time equals one destroy of all its names |
| Manager.OntologyManager.DestroyWithPatients | ontology/ontology_manager.py:163-173 | destroys the surgery together with every patient undergoing it |
| Manager.OntologyManager.DeleteSurgery | ontology/ontology_manager.py:154-181 | an unknown name returns false and changes nothing; otherwise returns true and deletes the surgery with its patients |
| Manager.OntologyManager.DeletePatient | ontology/ontology_manager.py:183-200 | an unknown name returns false and changes nothing; otherwise returns true and destroys the patient |
| Manager.OntologyManager.CascadeEach | ontology/ontology_manager.py:215-227 | the loop deletes each listed surgery in turn, each with the patients it has at that moment |
| Manager.OntologyManager.DeleteScheduleBySurgeon | ontology/ontology_manager.py:202-235 | an unknown surgeon returns false and changes nothing; otherwise returns true and cascades over the surgeon's surgery list, read before the first delete |
| Manager.OntologyManager.DeleteScheduleByTimeslot | ontology/ontology_manager.py:237-273 | an unknown slot returns false and changes nothing; otherwise returns true and cascades over the surgeries booked into the slot |
| Manager.OntologyManager.DeleteAllSchedules | ontology/ontology_manager.py:275-302 | returns true, destroys every surgery and patient, and leaves no member of either class |
| Manager.SurgeonRowsSound | ontology/ontology_manager.py:56-66 | every schedule row comes from a listed surgery that has a time slot; there are at most as many rows as listed surgeries |
| Manager.SurgeonRowsComplete | ontology/ontology_manager.py:56-66 | every listed surgery with a time slot has its row in the schedule |
| Manager.PositionsSpec | ontology/ontology_manager.py:56-66 | the positions kept are strictly increasing, each lies within the list and passes the test, and every position that passes is kept |
| Manager.SurgeonRowsCount | ontology/ontology_manager.py:56-66 | the schedule has one row per listed position whose surgery has a slot |
| Manager.SurgeonRowAt | ontology/ontology_manager.py:56-66 | row k is the row of the surgery at the k-th slotted position of the list |
| Manager.SurgeonRowsInOrder | ontology/ontology_manager.py:56-66 | the rows are the slotted entries of the list, in list order and once per occurrence: as many rows as slotted positions, and row k belongs to the k-th of them |
| Manager.SurgeonScheduleInOrder | ontology/ontology_manager.py:50-66 | for a known surgeon, the schedule follows the surgeon's surgery list: positions strictly increasing, every slotted position present, row k for the k-th slotted position |
| Manager.SurgeonScheduleContents | ontology/ontology_manager.py:50-66 | an unknown surgeon gets []. Otherwise each row shows one of the surgeon's slotted surgeries, with the slot's start and end and the surgery's theatre, each "N/A" when missing, and every slotted surgery appears |
| Manager.TheatreRowsExact | ontology/ontology_manager.py:74-85 | the rows are exactly those of the surgeries whose first theatre is this one and that have a slot |
| Manager.TheatreScheduleContents | ontology/ontology_manager.py:68-85 | an unknown theatre gets []; otherwise the rows are exactly those of the stored surgeries booked into it with a slot |
| Manager.TheatreRowsCount | ontology/ontology_manager.py:74-85 | the schedule has one row per surgery booked into the theatre |
| Manager.TheatreRowAt | ontology/ontology_manager.py:74-85 | row k is the row of the k-th surgery booked into the theatre |
| Manager.TheatreRowsInOrder | ontology/ontology_manager.py:74-85 | the rows follow the surgeries in the order given, once per surgery booked into the theatre |
| Manager.TheatreScheduleInOrder | ontology/ontology_manager.py:68-85 | for a known theatre, the schedule follows the store's order of surgeries: positions strictly increasing, every booked surgery present, row k for the k-th booked surgery |
| Manager.ScheduleInfoContents | ontology/ontology_manager.py:304-336 | none iff the surgery is unknown. The surgeon and theatre are the first recorded or "N/A"; the emergency flag is the first recorded or false. When nobody undergoes the surgery, the patient, ward and recovery room are all "N/A"; otherwise they are the name, first ward and first recovery room of the first patient who does. The duration is present iff recorded. With no slot, the slot name and both times are "N/A"; with one, they are the first slot's name, start and end |
| Manager.FirstPatientIsFirst | ontology/ontology_manager.py:312-316 | the patient found is the first in store order who undergoes the surgery |
| Manager.AddSurgeonEffect | ontology/ontology_manager.py:89-105 | adds exactly the name and the Surgeon class, sets the license, and sets the theatre link only when the theatre name resolves; other individuals are unchanged |
| Manager.AddSurgeryEffect | ontology/ontology_manager.py:107-135 | adds exactly the name and the Surgery class, sets duration and emergency flag, and sets each of the surgeon, theatre and slot links only when its name resolves; other individuals are unchanged |
| Manager.AddTimeslotEffect | ontology/ontology_manager.py:137-150 | adds exactly the name and the TimeSlot class, sets start, end and duration, keeps any overlap edges, and leaves other individuals unchanged |
| Manager.AddTimeslotIdempotent | ontology/ontology_manager.py:137-150 | adding the same time slot twice equals adding it once |
| Manager.AddSurgeryIdempotent | ontology/ontology_manager.py:107-135 | adding the same surgery twice equals adding it once |
| Manager.DeleteSurgeryEffect | ontology/ontology_manager.py:154-181 | removes exactly the surgery and its patients; every other individual survives, scrubbed; no survivor still refers to the surgery |
| Manager.DeleteBySurgeonEffect | ontology/ontology_manager.py:202-235 | removes exactly the surgeon's listed surgeries and all their patients, in one step |
| Manager.DeleteByTimeslotEffect | ontology/ontology_manager.py:237-273 | removes exactly the surgeries booked into the slot and all their patients, in one step |
| Manager.ScheduleNamesAre | ontology/ontology_manager.py:279-280 | every name deleted by the clear-all is a stored surgery or patient |
| Manager.InScheduleNames | ontology/ontology_manager.py:279-280 | every stored surgery and patient is deleted by the clear-all |
| Manager.DeleteAllEffect | ontology/ontology_manager.py:275-302 | no surgery and no patient remains; every other individual survives, scrubbed |
| Reasoner.SurgeriesOverlap | ontology/reasoner.py:196-215 | never true when either surgery lacks a slot; always true when the second slot is in the first slot's overlap list; otherwise false when either slot lacks a start or an end, and else equal to the clock-time overlap of the two first starts and ends |
| Reasoner.InTheatre | ontology/reasoner.py:109-110 | keeps exactly the surgeries whose first required theatre is the given one |
| Reasoner.Resolve | ontology/reasoner.py:169 | resolves each name of a link list to its individual, in order |
| Reasoner.ConflictDetector.constructor | ontology/reasoner.py:11-13 | the detector reads the given manager's store |
| Reasoner.ConflictDetector.CheckSurgeonConflicts | ontology/reasoner.py:68-96 | returns the surgeon scan's records for one surgeon, or for all surgeons when no name is given |
| Reasoner.ConflictDetector.CheckTheatreConflicts | ontology/reasoner.py:98-125 | returns the theatre scan's records for one theatre, or for all theatres when no name is given |
| Reasoner.ConflictDetector.CheckPatientConflicts | ontology/reasoner.py:158-183 | returns the patient scan's records for one patient, or for all patients when no name is given |
| Reasoner.ConflictDetector.CheckConflicts | ontology/reasoner.py:72-94 | picks the named individual, or every member of the scanned class, and returns the scan's records for them |
| Reasoner.ConflictDetector.ScanTargets | ontology/reasoner.py:74-94 | the outer loop collects each target's pair records in target order |
| Reasoner.ConflictDetector.ComparePairs | ontology/reasoner.py:81-94 | the nested i < j loops emit one record per overlapping pair, in scan order |
| Reasoner.ConflictDetector.CompareRow | ontology/reasoner.py:82-94 | the inner loop appends one record for each later surgery that overlaps surgery i, in order |
| Reasoner.ConflictDetector.CheckSpecializationMismatches | ontology/reasoner.py:129-156 | the loop collects each surgery's mismatch in store order |
| Reasoner.ConflictDetector.DetectAllConflicts | ontology/reasoner.py:185-192 | returns the four scans over the whole store; it changes nothing, so a repeated call returns the same report |
| Reasoner.RowConflictsBound | ontology/reasoner.py:82 | the inner loop for surgery i over the surgeries before j adds at most j-i-1 records |
| Reasoner.RowConflictsSound | ontology/reasoner.py:82-94 | every record of row i names surgery i and a later surgery that it overlaps |
| Reasoner.RowConflictsComplete | ontology/reasoner.py:82-94 | every later surgery that overlaps surgery i has its record in row i |
| Reasoner.PairConflictsSound | ontology/reasoner.py:81-94 | every record of the first n rows names an overlapping pair i < k with i < n |
| Reasoner.PairConflictsComplete | ontology/reasoner.py:81-94 | every overlapping pair i < k with i < n is recorded in the first n rows |
| Reasoner.TargetConflictSound | ontology/reasoner.py:74-94 | a record found for one target names that target and two of its own slotted surgeries that overlap |
| Reasoner.PairConflictsBound | ontology/reasoner.py:81-82 | after n outer rounds, at most n(2m-n-1)/2 records exist for m surgeries |
| Reasoner.AtMostOnePerPair | ontology/reasoner.py:81-94 | m surgeries yield at most m(m-1)/2 records, none when m is at most 1, and exactly as many records as overlapping pairs i < k |
| Reasoner.RowConflictsCount | ontology/reasoner.py:82-94 | row i holds exactly one record per later surgery that overlaps surgery i |
| Reasoner.PairConflictsCount | ontology/reasoner.py:81-94 | the first n rows hold exactly one record per overlapping pair i < k with i < n, so no pair is reported twice |
| Reasoner.ConflictsCount | ontology/reasoner.py:72-94 | a scan holds exactly one record per overlapping pair of each visited target's surgeries |
| Reasoner.ConflictsOfCount | ontology/reasoner.py:68-183 | each double-booking scan reports exactly one record per overlapping pair of the surgeries of each surgeon, theatre or patient it visits |
| Reasoner.ConflictsExact | ontology/reasoner.py:74-94 | a scan's records are exactly the union of its targets' pair records |
| Reasoner.TargetsMeaning | ontology/reasoner.py:72 | a scan visits the individual named by the filter, or every member of the scanned class when there is no filter |
| Reasoner.SurgeryMeaning | ontology/reasoner.py:109-110 | each surgery a scan compares is the surgeon's, the theatre's or the patient's own |
| Reasoner.ConflictsSound | ontology/reasoner.py:68-183 | every record names a scanned resource and two of its surgeries, both slotted and overlapping |
| Reasoner.ConflictsComplete | ontology/reasoner.py:68-183 | every overlapping pair i < k of a scanned resource's surgeries is reported |
| Reasoner.SurgeriesOverlapSymmetric | ontology/reasoner.py:196-215 | when the overlap edges are recorded in both directions, the order of the two surgeries does not matter |
| Reasoner.OverlapEdgeIsOneWay | ontology/reasoner.py:205 | with an edge recorded in one direction only and no times, the answer depends on argument order |
| Reasoner.ConflictsKind | ontology/reasoner.py:88 | every record of a scan carries that scan's type |
| Reasoner.ReportSeverities | ontology/reasoner.py:185-192 | surgeon and theatre records are HIGH, patient records CRITICAL, mismatches MEDIUM, each with its type label |
| Reasoner.MismatchesExact | ontology/reasoner.py:133-154 | the mismatches are exactly those of the surgeries that show one |
| Reasoner.MismatchesSound | ontology/reasoner.py:133-154 | each mismatch names a surgery's first surgeon and first required theatre, where the surgeon has theatres and the required one is not among them |
| Reasoner.MismatchesComplete | ontology/reasoner.py:133-154 | every surgery whose first surgeon has theatres, none of them the required one, is reported |
| Validators.ValidateTimeFormat | utils/validators.py:4-10 | accepts iff the string is hours 0-23, a colon and minutes 0-59 (one or two digits each), with the fixed message otherwise |
| Validators.ClockTimeIffParses | utils/validators.py:4-10 | the validator's acceptance coincides with the detector's `%H:%M` parser |
| Validators.AcceptsEveryRenderedTime | utils/validators.py:4-10 | every `HH:MM` rendering of a valid time is accepted |
| Validators.AcceptedTimeIsRead | utils/validators.py:4-10 | every accepted time is read by the detector, through its first format |
| Validators.DaysInMonth | utils/validators.py:15 | every month has 28 to 31 days |
| Validators.ParseDate | utils/validators.py:15 | a parsed date is a real calendar day with a year from 1 to 9999 |
| Validators.ValidateDateFormat | utils/validators.py:12-18 | accepts iff the string parses as a date, with the fixed message otherwise |
| Validators.ParseFormattedDate | utils/validators.py:12-18 | a rendered `YYYY-MM-DD` is read back as that date iff it names a real day, with a year of at least 1 |
| Validators.LeapDay | utils/validators.py:15 | 29 February is accepted exactly in Gregorian leap years |
| Validators.DateSplit | utils/validators.py:15 | the two hyphens of `%Y-%m-%d` cut a date into exactly its three fields |
| Validators.OneDigitMonthAndDay | utils/validators.py:15 | a one-digit month and a one-digit day are accepted and read as that date |
| Validators.BlankPaddedDay | utils/validators.py:15 | a blank before a one-digit day is accepted and read as that day |
| Validators.ValidateDuration | utils/validators.py:20-26 | accepts exactly 30 to 600 minutes, with "too short" below and "too long" above |
| Validators.ValidateName | utils/validators.py:28-34 | accepts iff the name is not blank and has at most 100 characters, with the matching message otherwise |
| Validators.FieldInRange | utils/validators.py:7 | a field is accepted iff it is one or two digits whose decimal value lies in range, and then it is that value |
| Validators.StripBlank | utils/validators.py:30 | a name strips to nothing iff it is all whitespace |
| Store.SuffixSearch | ontology/ontology_manager.py:32 | the wildcard lookup, as written, finds the first individual whose name ends with the query, and none iff no name does |
| Store.SuffixSearchFindsExact | ontology/ontology_manager.py:32 | the wildcard lookup finds something whenever the exact lookup does |
| Store.SuffixSearchOverreaches | ontology/ontology_manager.py:32 | the query "Doe" finds the patient "Patient_John_Doe", where the exact lookup finds nothing |
| Store.SuffixSearchPicksWrongIndividual | ontology/ontology_manager.py:32 | with "Patient_Mary_Smith" stored before a surgeon "Smith", the query "Smith" finds the patient |

## Left out

- Pellet and the SWRL rules (ontology/reasoner.py:15-64) duplicate the imperative scans on an external reasoner, so they are not modelled.
- Saving to and loading from RDF/XML, and all printing, are I/O. The constructor takes the already loaded store.
- Manager.OntologyManager.constructor requires the loaded store to be well formed: unique names, and every link naming a stored individual. In a loaded ontology, links are references to existing individuals.
- The `try/except` wrappers are left out.
  - The model has no failing store operation, so `add_*` and `delete_all_schedules` always return true.
  - `_times_overlap` has no exception path beyond the parse failures it models.
- Manager.OntologyManager.AddSurgeon: the surgeon's theatre link is set only when the name resolves, as in the source. The `False` the source returns on an exception does not exist in the model. The same holds for AddSurgery and AddTimeslot.
- Store: owlready2 chooses an automatic name when `Class("")` is given an empty name. The model declares the empty name itself.
- Store: the data properties are lists read through their first element, as the manager reads them. The bootstrap script declares them functional, which owlready2 turns into scalar values. That list-versus-scalar behaviour of the library is not modelled.
- Store: only the properties the core reads are modelled. These are the license number, estimated duration, emergency flag, start, end and duration, plus eight object properties. The slot date and the other relations of the bootstrap script are not part of this model.
- Store.SuffixSearch: the wildcard matches the full IRI. The model matches the individual's name, so it leaves out queries longer than the name that also reach into the namespace prefix.
- TimeOfDay and Validators: only ASCII digits count as digits, through `AllDigits`/`IsDigit`. This holds in `TimeOfDay.Field`, which reads `%H`, `%M` and the month `%m`, and in `Validators.YearField` and `Validators.DayField`. Python's `strptime` also accepts other Unicode decimal digits. Whitespace is the set Python's `str.isspace` accepts.
- Manager.DeleteBySurgeonEffect requires unique names, and that no listed surgery is itself a patient. Without that, the one-step description can differ from the loop. `Manager.OntologyManager.DeleteScheduleBySurgeon` itself is stated for every store.
- Manager.DeleteByTimeslotEffect requires unique names, and that no individual is both a surgery and a patient, for the same reason.
- Reasoner.ConflictsSound requires unique names, so that the individual a record names is the one that was compared. The same holds for Reasoner.MismatchesSound and Reasoner.TargetsMeaning.
- Reasoner.SurgeriesOverlapSymmetric requires the overlap edges to be recorded in both directions, which the code does not guarantee (see `Reasoner.OverlapEdgeIsOneWay`).
- The `deleted_count` counters of the delete methods only feed printed messages, so they are not modelled.

## Findings

| source | as written | input that shows it | evidently intended | confidence | as-written member | corrected member |
|---|---|---|---|---|---|---|
| ontology/ontology_manager.py:32 | every lookup uses the IRI wildcard `*name`, which matches any individual whose IRI ends with the name, and returns the first match | a store with the patient `Patient_Mary_Smith` before the surgeon `Smith`: a lookup of `Smith` returns the patient, and a lookup of `Doe` finds `Patient_John_Doe` although no `Doe` exists | look up the individual with exactly that name | not executed | Store.SuffixSearchPicksWrongIndividual | Store.SearchOne |
