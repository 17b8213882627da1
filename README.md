# Make-up exam timetable, modelled in Dafny

`main.py` schedules make-up exams ("provas de recuperação") with the CP-SAT
solver. Its inputs are two JSON files:

- `horarios` gives, for every course, a busy (1) or free (0) flag for each
  period of each weekday.
- `recup_raw` lists, for every course, the students who owe make-up exams and
  the subjects each student owes.

The horizon is `AGENDA`: two school weeks of five day-instances each. The
script works in five steps:

1. It numbers the slots of the horizon as `lin(d, p) = d * SLOTS_DAY + p` and
   collects each course's free slots.
2. It builds three demand indexes: subjects per course, subjects per student,
   and courses per subject.
3. It posts one integer variable per (course, subject) exam and adds these
   constraints:
   - a student's exams fall in distinct slots;
   - a student has at most 3 exams per day-instance, counted through boolean
     day indicators tied to the slot by an allowed-assignments table;
   - a subject shared by two courses whose free slots meet is held in one
     session;
   - `latest` is the maximum slot used, and it is minimised.
4. It asks the solver for an answer.
5. It lays the answer out as one grid per course: one cell per slot, holding
   the subjects examined there.

The Dafny project models steps 1 to 5, one module per stage:

- `Entities` (`entities.dfy`): identifiers and list helpers.
- `Calendar` (`calendar.dfy`): slot numbering, free slots, day ranges and the
  day-indicator table.
- `Demand` (`demand.dfy`): the three indexes. The loops that build them are
  methods, proved against functions that state what each dictionary holds.
- `CpSat` (`cpsat.dfy`): the posted model as a value, and what it means for an
  assignment to satisfy it.
- `ConstraintModel` (`constraints.dfy`): the timetable rules as a predicate
  `Valid`, and one method per posting loop, each proved against what it posts.
- `ModelCorrectness` (`correctness.dfy`): the posted model accepts exactly the
  valid timetables.
  - Soundness: any satisfying assignment is valid, its day indicators are
    exact, and `latest` is its makespan.
  - Completeness: when at least one exam is declared, every valid timetable
    extends to a satisfying assignment.
- `ScheduleGrid` (`grid.dfy`): the grid-filling loop and what the grid holds.
- `Timetable` (`timetable.dfy`): the whole script. Its outcomes are the crash
  on malformed input, "no viable solution", or a grid.
- `Scenarios` (`scenarios.dfy`): small instances on which the rules alone
  decide the outcome.

The solver is a parameter: a function from models to answers. It is only
trusted to return, with status OPTIMAL or FEASIBLE, values that satisfy the
model.

## Model

| member | source | states |
|---|---|---|
| Calendar.TotalSlots | main.py:15 | definition: `T_SLOTS = len(AGENDA) * SLOTS_DAY` |
| Calendar.Lin | main.py:17 | definition: `lin(d, p) = d * SLOTS_DAY + p` |
| Calendar.Unlin | main.py:18 | `divmod(k, SLOTS_DAY)` returns a period below `SLOTS_DAY` that, with the day, numbers back to `k` |
| Calendar.UnlinLin | main.py:17-18 | for `p < SLOTS_DAY`, `unlin(lin(d, p)) == (d, p)` |
| Calendar.LinBelowHorizon | main.py:15-17 | `lin(d, p) < T_SLOTS` whenever `d < len(AGENDA)` and `p < SLOTS_DAY` |
| Calendar.LinOrder | main.py:17 | slot numbers grow with the day-instance: an earlier day's slot precedes every slot of a later day |
| Calendar.UnlinInsideAgenda | main.py:15-18 | every slot below `T_SLOTS` decodes to a day-instance of the agenda |
| Calendar.RowFree | main.py:21-23 | definition: the free slots `lin(d, p)` of one day-instance's flag row, in period order |
| Calendar.FreeUpTo | main.py:21-23 | definition: the free slots of the first `n` day-instances, day by day |
| Calendar.FreeSlots | main.py:21-24 | definition: `free[c]`, the free slots of the whole agenda |
| Calendar.RowFreeFacts | main.py:21-23 | for a flag row of any length, one day's free slots are strictly increasing and are exactly the slots `lin(d, p)` of that day whose flag `p` is 0 |
| Calendar.FreeUpToPairs | main.py:21-23 | for flag rows of any length, `k` is a free slot of the first `n` day-instances iff `k == lin(d, p)` for some `d < n` and period `p` of `d`'s row whose flag is 0 |
| Calendar.FreeUpToFacts | main.py:21-23 | when every row has `SLOTS_DAY` flags, the free slots of the first `n` day-instances are strictly increasing and are exactly the slots below `n * SLOTS_DAY` whose flag is 0 |
| Calendar.FreeSlotsCharacterised | main.py:21-24 | `free[c]` holds `k` iff `k == lin(d, p)` for a day-instance `d` and period `p` whose flag is 0; when every row has `SLOTS_DAY` flags it is also strictly increasing (so `sorted` leaves it unchanged) and holds `k` iff `k < T_SLOTS` and the flag at `unlin(k)` is 0 |
| Calendar.Range | main.py:35 | `range(lo, hi)` holds exactly the integers `lo <= k < hi`, `hi - lo` of them, in increasing order |
| Calendar.DayRange | main.py:35 | definition: `day_rng[di]`, `range(di*SLOTS_DAY, (di+1)*SLOTS_DAY)` |
| Calendar.InDayRange | main.py:35 | `k in day_rng[di]` iff `k >= 0` and `k / SLOTS_DAY == di` |
| Calendar.DayRangeInHorizon | main.py:35 | for a day-instance `di` of the agenda, `k in day_rng[di]` iff `0 <= k < T_SLOTS` and `k / SLOTS_DAY == di` |
| Calendar.DayRanges | main.py:35 | `day_rng` has one range per day-instance and partitions `0..T_SLOTS-1`: each slot lies in the range of day `k / SLOTS_DAY` and in no other, and no range holds a slot outside the horizon |
| Calendar.Outside | main.py:53 | definition: the pairs `(k, 0)` for the `k < T_SLOTS` outside the day's range, in increasing order |
| Calendar.DayTable | main.py:52-53 | definition: the allowed assignments of a day indicator, `(k, 1)` for the day's range then `(k, 0)` for the other slots |
| Calendar.InDay | main.py:52-53 | definition: the day indicator, 1 when `k` lies in the day's range and 0 otherwise |
| Calendar.OutsideFacts | main.py:53 | the `(k, 0)` part of the table lists, in increasing order, exactly the `k < T_SLOTS` outside the day's range |
| Calendar.DayTableReifies | main.py:52-53 | `(k, b)` is an allowed assignment iff `0 <= k < T_SLOTS` and `b` is 1 exactly when `k` is in the day's range |
| Calendar.DayTableListsEachSlotOnce | main.py:53 | the table lists every slot of the horizon exactly once, paired with its day indicator |
| Demand.BuildDemand | main.py:26-29 | the loop leaves `disc_by_course[c]` as the union of the subjects of `c`'s students, for every course of `horarios`, and `disc_by_student[(c, a)]` as the subjects of student `a` |
| Demand.RequiredByCourse | main.py:26-29 | definition: `disc_by_course`, each course of `horarios` with the union of its students' subjects |
| Demand.SubjectsByStudent | main.py:26-29 | definition: `disc_by_student`, each (course, student) of the roster with the student's subjects |
| Demand.RequiredExceptStep | main.py:29 | visiting one more student adds exactly that student's subjects to the course's set |
| Demand.RequiredExceptAll | main.py:27-29 | before any student is visited the course's set is empty; after all are visited it is the union of their subjects |
| Demand.StudentMapEqual | main.py:26-29 | a map with the roster's (course, student) keys and the students' subjects is `disc_by_student` |
| Demand.CourseMapEqual | main.py:26-29 | a map with one entry per course of `horarios`, holding its students' subjects, is `disc_by_course` |
| Demand.StudentsWithinCourse | main.py:29 | each student's subjects are a subset of the subjects of the student's course |
| Demand.RequiredIsUnionOfStudents | main.py:26-29 | `d in disc_by_course[c]` iff some student `a` of `c` has `d in disc_by_student[(c, a)]` |
| Demand.CoursesNeeding | main.py:31-33 | definition: the courses needing subject `d`, in `horarios` order, as the `append` loop lists them |
| Demand.CoursesBySubject | main.py:31-33 | definition: `courses_by_disc`, each needed subject with the list of courses needing it |
| Demand.CoursesNeedingStep | main.py:32-33 | visiting course `i` appends it to the list of exactly the subjects it needs |
| Demand.IndexBySubject | main.py:31-33 | the `setdefault(...).append` loop builds `courses_by_disc`: per needed subject, the courses needing it, in course order |
| Demand.IndexEqual | main.py:31-33 | a map keyed by the needed subjects and holding each one's courses is `courses_by_disc` |
| Demand.NotNeededMeansNone | main.py:31-33 | a subject no course needs has no courses listed |
| Demand.CoursesNeedingFacts | main.py:31-33 | the list for `d` holds `c` iff `d in disc_by_course[c]`; it is empty iff no course needs `d`; it has no duplicates |
| Demand.CoursesBySubjectIsInverse | main.py:31-33 | `courses_by_disc` has a key `d` iff some course needs `d`, and `courses_by_disc[d]` lists each such course once and nothing else |
| CpSat.IndicatorSum | main.py:58 | definition: `sum(bvar[(c, d, di)] for d in ds)` |
| CpSat.MaxOf | main.py:66 | definition: the largest value among the listed slot variables |
| CpSat.MakespanHolds | main.py:65-66 | definition: `latest` lies in `0..T_SLOTS-1` and equals the maximum of the slot variables, which must be non-empty |
| CpSat.Satisfies | main.py:38-66 | definition: an assignment meets every domain, `!=`, table, cap, `==` and the `AddMaxEquality` of the model |
| CpSat.MaxOfIsMaximum | main.py:66 | the maximum over the listed slot variables is the value of one of them and bounds them all |
| CpSat.IndicatorSumCounts | main.py:58 | over a duplicate-free list of 0/1 indicators, `sum(...)` is the number of indicators equal to 1 |
| ConstraintModel.Valid | main.py:38-63 | definition: a timetable gives each exam a free slot of its course inside the horizon, keeps a student's subjects apart, holds at most 3 of a student's exams per day-instance and holds a shared subject once when the courses' free slots meet |
| ConstraintModel.MaxDaily | main.py:58 | definition: the daily cap, 3 |
| ConstraintModel.Overlap | main.py:62 | definition: `set(free[c1]) & set(free[c2])` is non-empty |
| ConstraintModel.SlotDomains | main.py:39-42 | definition: the domain of each exam variable `(c, d)`, the set of `c`'s free slots |
| ConstraintModel.DistinctPosted | main.py:44-46 | definition: every posted `!=` joins two different subjects of one student, and each such pair is posted in at least one orientation |
| ConstraintModel.DayLinks | main.py:48-54 | definition: one allowed-assignment table per exam variable and day-instance, that day's table |
| ConstraintModel.CapsPosted | main.py:56-58 | definition: one cap per student and day-instance, listing the student's subjects once each |
| ConstraintModel.SyncPairs | main.py:60-63 | definition: the `==` pairs, the `i`-th and `j`-th (`i < j`) courses listed for a subject whose free slots meet |
| ConstraintModel.Posted | main.py:38-66 | definition: the model holds exactly these domains, `!=`, tables, caps of 3, `==`, `latest`'s domain `0..T_SLOTS-1` and the maximum over every exam variable once |
| ConstraintModel.DeclareSlots | main.py:38-42 | one variable per (course, subject needed), with the course's free slots as domain; the declaration order lists each variable once |
| ConstraintModel.Combinations | main.py:45 | `combinations(ds, 2)` yields each unordered pair of distinct elements exactly once |
| ConstraintModel.PostDistinct | main.py:44-46 | every posted `!=` joins two different subjects of one student, and every such pair is posted in one orientation |
| ConstraintModel.DayLinkKeys | main.py:48-54 | a day indicator exists for `(c, d, di)` iff `(c, d)` is an exam variable and `di` a day-instance |
| ConstraintModel.LinkDays | main.py:48-54 | the loop creates one indicator per exam variable and day-instance, tied by that day's table |
| ConstraintModel.ListOf | main.py:58 | iterating a set visits each element once |
| ConstraintModel.PostCaps | main.py:56-58 | one cap per student and day-instance, over the student's subjects, each counted once |
| ConstraintModel.PostSync | main.py:60-63 | `==` is posted for subject `d` between the `i`-th and `j`-th courses needing it (`i < j`) exactly when their free sets meet |
| ConstraintModel.BuildModel | main.py:38-66 | the model holds exactly what the posting loops post, with a cap of 3, `latest` in `0..T_SLOTS-1` and the maximum taken over every exam variable once |
| ModelCorrectness.SharingCourses | main.py:31-33 | the courses listed for a subject are exactly those needing it, each once |
| ModelCorrectness.SharedIsPosted | main.py:60-63 | a subject needed by two different courses whose free slots meet has an `==` between them, in one orientation |
| ModelCorrectness.PostedIsShared | main.py:60-63 | every posted `==` joins two different courses that need the subject and whose free slots meet |
| ModelCorrectness.LinksReify | main.py:48-54 | in any satisfying assignment, each `bvar[(c, d, di)]` is 1 exactly when the exam falls on day-instance `di` |
| ModelCorrectness.DomainSound | main.py:40-42 | in any satisfying assignment every exam has a free slot of its course inside the horizon, and `latest` is the largest slot used |
| ModelCorrectness.ApartSound | main.py:44-46 | in any satisfying assignment, a student's different subjects get different slots |
| ModelCorrectness.SumIsDayLoad | main.py:56-58 | with exact indicators, the capped sum is the number of the student's exams on that day-instance |
| ModelCorrectness.CapCountsDayLoad | main.py:56-58 | each posted cap sums exactly the indicators of the student's exams on that day |
| ModelCorrectness.SyncSound | main.py:60-63 | in any satisfying assignment, a shared subject with meeting free sets gets one slot in both courses |
| ModelCorrectness.SatisfiesImpliesValid | main.py:38-66 | every assignment satisfying the posted model is a valid timetable; its indicators are exact and `latest` is its makespan |
| ModelCorrectness.CompletionDomains | main.py:38-42 | a valid timetable meets every posted domain |
| ModelCorrectness.CompletionDiffer | main.py:44-46 | a timetable without student clashes meets every posted `!=` |
| ModelCorrectness.CompletionLinkAt | main.py:48-54 | setting an indicator to its exam's day membership is an allowed assignment of its table |
| ModelCorrectness.CompletionLinks | main.py:48-54 | indicators set to day membership meet every table and are exact |
| ModelCorrectness.CompletionCaps | main.py:56-58 | a timetable within the daily cap, with exact indicators, meets every posted cap |
| ModelCorrectness.CompletionSame | main.py:60-63 | a synchronised timetable meets every posted `==` |
| ModelCorrectness.CompletionMakespan | main.py:65-66 | setting `latest` to the largest slot used meets `AddMaxEquality` and `latest`'s domain |
| ModelCorrectness.ValidImpliesSatisfies | main.py:38-66 | when at least one exam is declared, every valid timetable, with exact indicators and its makespan, satisfies the posted model, so the model excludes no valid timetable |
| ScheduleGrid.Cell | main.py:75-77 | definition: cell `v` of course `c`, the subjects appended to it in `slot` order |
| ScheduleGrid.Row | main.py:75-77 | definition: `grade[c]`, one cell per slot of the horizon |
| ScheduleGrid.RowSnoc | main.py:76-77 | appending one exam changes only the cell of its course at its value |
| ScheduleGrid.Extract | main.py:75-77 | the loop builds `grade` with one row per course of `horarios`; cell `v` of `c` lists, in `slot` order, the subjects of `c` whose value is `v` |
| ScheduleGrid.CellFacts | main.py:75-77 | `d` is in cell `v` of `c` iff the exam `(c, d)` has value `v`; a cell lists no subject twice |
| ScheduleGrid.OwnedFacts | main.py:76 | the subjects of `c` visited by the loop are those of its exam variables, each once |
| ScheduleGrid.LoadBump | main.py:77 | one `append` adds one entry to the row |
| ScheduleGrid.LoadOfEmpty | main.py:75 | a fresh row holds no entries |
| ScheduleGrid.RowLoad | main.py:75-77 | the cells of a row together hold one entry per exam of the course |
| ScheduleGrid.GridHoldsEachExamOnce | main.py:75-77 | each subject of `disc_by_course[c]` appears in exactly one cell of `grade[c]`, the cell of its slot; the cell lengths sum to `len(disc_by_course[c])` |
| ScheduleGrid.GridListsEachExamOnce | main.py:75-77 | every row of the extracted grid lists in cell `v` exactly the course's subjects whose slot is `v`, none twice, and holds each exam of the course once |
| ScheduleGrid.OccupiedCellsAreFree | main.py:75-77 | under a valid timetable every non-empty cell of `grade[c]` is a free slot of `c` |
| ScheduleGrid.NoStudentTwiceInCell | main.py:75-77 | under a valid timetable no cell holds two subjects of one student |
| Timetable.Agenda | main.py:13 | definition: `AGENDA`, two weeks of Monday-to-Friday labels |
| Timetable.Solved | main.py:71 | definition: the status is OPTIMAL or FEASIBLE |
| Timetable.SlotsPerDay | main.py:14 | definition: `SLOTS_DAY`, the length of the first course's `seg` row |
| Timetable.FreeTable | main.py:21-24 | definition: `free`, each course's free slots |
| Timetable.InstanceOf | main.py:13-33 | definition: the horizon, free slots and demand indexes the script derives from its inputs |
| Timetable.InstanceWellFormed | main.py:14-33 | readable inputs give indexes of the shape the posting loops rely on |
| Timetable.Schedule | main.py:13-77 | each malformed input raises as the script does (no course, a missing day row, a roster course with students but no timetable). Otherwise the posted model is the one described. A non-OPTIMAL/FEASIBLE status stops without a grid. Any other answer yields a valid timetable, with exact indicators and `latest` its makespan, and its grid, whose row for each course holds each of the course's exams exactly once, in the cell of its slot |
| Timetable.EmptyDomainLeavesNoTimetable | main.py:40-42 | a course that owes a subject but has no free slot admits no valid timetable |
| Scenarios.OneCourseWellFormed | main.py:31-33 | a one-course instance has the subject index the script builds |
| Scenarios.TwoPeriodsReadFromFlags | main.py:21-33 | the two-period instance is well formed and its free slots are those read from one day of two free periods |
| Scenarios.OnePerPeriodInDomain | main.py:40-42 | two subjects in periods 0 and 1 of a course free in both use free slots |
| Scenarios.OnePerPeriodNoClash | main.py:44-46 | two subjects in different periods do not clash |
| Scenarios.OnePerPeriodWithinCap | main.py:56-58 | two exams on one day-instance are within the cap of 3 |
| Scenarios.TwoPeriodsFitTwoSubjects | main.py:38-63 | one course with two free periods and one student owing two subjects has a valid timetable |
| Scenarios.TwoSubjectsTakeBothPeriods | main.py:40-46 | in that instance every valid timetable uses both periods, one subject each, so its makespan is 1 |
| Scenarios.OneFreePeriodIsInfeasible | main.py:40-46 | with a single free period, a student owing two subjects has no valid timetable |
| Scenarios.FourSubjectsInOneDayIsInfeasible | main.py:56-58 | on a single day-instance, a student owing four subjects exceeds the cap of 3, whatever the slots |
| Scenarios.SharedSubjectIsSynchronised | main.py:60-63 | two courses free only in slot 0 and both owing `Z` hold `Z` together, in slot 0 |

## Left out

- Reading the JSON files (main.py:10-11) is I/O. The parsed dictionaries are
  parameters of `Timetable.Schedule`: `horarios` is the list of its keys in
  order plus a map, and `recup_raw` is a map whose subject lists are already
  sets, as `set(dl)` makes them.
- The CP-SAT search, the 10-second time limit and the objective `Minimize`
  (main.py:67, 70) belong to the foreign solver. The solver is a function
  parameter that is trusted only to return satisfying values with an OPTIMAL
  or FEASIBLE status. Optimality of the makespan is not modelled; only its
  definition as a maximum is.
- `Domain.FromValues`, `NewIntVar`, `NewBoolVar` and the variable names are
  solver plumbing. A domain is modelled as the set of its values.
- Console printing and the xlsxwriter spreadsheets (main.py:80-141) are
  presentation and file I/O.
- `ConstraintModel.Combinations`: Python yields the pairs in set iteration
  order; the model fixes no orientation or order, only that each pair comes
  once. Set iteration in the other loops is nondeterministic in the same way.
- `CpSat.MakespanHolds`: a maximum over an empty list is treated as
  unsatisfiable. With no subject to schedule, no answer is trusted and the
  outcome is "no viable solution".
- `Timetable.Schedule`: Python raises `StopIteration` or `KeyError`. The model
  returns a `Crashed` outcome naming the kind of failure, but not the key
  involved.
- Calendar.FreeSlotsCharacterised: flag rows may have any length, since the
  script checks no input shape. For any lengths the lemma states only which
  `(day, period)` pairs give the free slots. Their increasing order and the
  bound `T_SLOTS` are stated only when every row has `SLOTS_DAY` flags.
- Calendar.FreeUpToFacts: the order and the `n * SLOTS_DAY` bound are stated
  only for rows of `SLOTS_DAY` flags. A longer row gives slots `lin(d, p)`
  that run into the next day-instance. Soundness and the grid lemmas do not
  depend on row lengths.
- A course owing a subject with no free slot reaches the solver like any other
  model, since the script does not check for empty domains.
  `Timetable.EmptyDomainLeavesNoTimetable` shows that such a model has no
  valid timetable, so a trusted solver reports no solution.
- The daily cap is the literal 3 of main.py:58 (`ConstraintModel.MaxDaily`),
  not a setting.
- `unlin` is defined but never called by the script. It is modelled with its
  round trip only.
