/** The script from its inputs to the per-course grid: the calendar read
    from `horarios`, the demand indexes from `recup_raw`, the posted model,
    the solver's answer and the grid extracted from it. The inputs are given
    as values (the JSON files already parsed), and the solver as a function
    from models to answers that is only trusted to honour what it reports as
    OPTIMAL or FEASIBLE. */
module Timetable {
  import opened Entities
  import opened Calendar
  import opened Demand
  import opened CpSat
  import opened ConstraintModel
  import opened ModelCorrectness
  import opened ScheduleGrid

  /** `AGENDA`: two school weeks, Monday to Friday, one day-instance each. */
  const Agenda: seq<DayLabel> := ["seg", "ter", "qua", "qui", "sex", "seg", "ter", "qua", "qui", "sex"]

  /** One course's entry of `horarios`: weekday label to the busy (1) or free
      (0) flag of each period. */
  type Week = map<DayLabel, seq<int>>

  datatype Status = Optimal | Feasible | Infeasible | ModelInvalid | Unknown

  predicate Solved(status: Status) {
    status == Optimal || status == Feasible
  }

  /** What the solver returns for a model: its status and the value of every variable. */
  datatype Answer = Answer(status: Status, values: Solution)

  /** A solver whose OPTIMAL and FEASIBLE answers satisfy the model they answer. */
  ghost predicate Trusted(solve: CpModel -> Answer) {
    forall m :: Solved(solve(m).status) ==> Satisfies(m, solve(m).values)
  }

  /** How the script stops before solving: `next(iter(...))` on no courses,
      or a `KeyError` on a missing day row or an unknown roster course. */
  datatype InputFault = NoCourses | MissingDayRow | UnknownCourse

  datatype Outcome =
    | Crashed(fault: InputFault)
      /** `SystemExit("Sem solução viável")`. */
    | NoSolution(model: CpModel, status: Status)
    | Scheduled(model: CpModel, status: Status, values: Solution, grade: Grid)

  /** Every course has a flag row for every label of the agenda. */
  predicate AgendaCovered(avail: map<Course, Week>) {
    forall c :: c in avail ==> CoversAgenda(Agenda, avail[c])
  }

  /** The inputs the script reads without raising. */
  predicate Readable(courses: seq<Course>, avail: map<Course, Week>, roster: Roster) {
    courses != [] && AgendaCovered(avail) && Enrolled(courses, roster)
  }

  /** `SLOTS_DAY`: the length of the first course's Monday row. */
  function SlotsPerDay(courses: seq<Course>, avail: map<Course, Week>): nat
    requires courses != [] && courses[0] in avail && CoversAgenda(Agenda, avail[courses[0]])
  {
    assert Agenda[0] in avail[courses[0]];
    |avail[courses[0]]["seg"]|
  }

  /** `free`: each course's free slots. */
  function FreeTable(avail: map<Course, Week>, spd: nat): map<Course, seq<nat>>
    requires AgendaCovered(avail)
  {
    map c | c in avail :: FreeSlots(spd, Agenda, avail[c])
  }

  /** The instance the script derives from readable inputs. */
  function InstanceOf(courses: seq<Course>, avail: map<Course, Week>, roster: Roster): Instance
    requires Values(courses) == avail.Keys && Readable(courses, avail, roster)
  {
    assert courses[0] in Values(courses);
    var spd := SlotsPerDay(courses, avail);
    var discByCourse := RequiredByCourse(courses, roster);
    Instance(spd, |Agenda|, courses, FreeTable(avail, spd), discByCourse,
             SubjectsByStudent(roster), CoursesBySubject(courses, discByCourse))
  }

  /** The instance has the shape the posting loops rely on. */
  lemma InstanceWellFormed(courses: seq<Course>, avail: map<Course, Week>, roster: Roster)
    requires NoDup(courses) && Values(courses) == avail.Keys && Readable(courses, avail, roster)
    ensures WellFormed(InstanceOf(courses, avail, roster))
  {
    var inst := InstanceOf(courses, avail, roster);
    forall k | k in inst.discByStudent
      ensures k.0 in inst.discByCourse && inst.discByStudent[k] <= inst.discByCourse[k.0]
    {
      assert k.1 in roster[k.0];
      StudentsWithinCourse(courses, roster, k);
    }
  }

  /** main.py:13-77: read the calendar, build the demand indexes, post the
      model, solve it and fill the grid. */
  method Schedule(courses: seq<Course>, avail: map<Course, Week>, roster: Roster, solve: CpModel -> Answer)
    returns (outcome: Outcome)
    requires NoDup(courses) && Values(courses) == avail.Keys
    requires Trusted(solve)
    ensures outcome == Crashed(NoCourses) <==> courses == []
    ensures outcome == Crashed(MissingDayRow) <==> courses != [] && !AgendaCovered(avail)
    ensures outcome == Crashed(UnknownCourse) <==> courses != [] && AgendaCovered(avail) && !Enrolled(courses, roster)
    ensures !outcome.Crashed? ==>
              && Readable(courses, avail, roster)
              && Posted(InstanceOf(courses, avail, roster), outcome.model)
              && outcome.status == solve(outcome.model).status
              && (outcome.Scheduled? <==> Solved(outcome.status))
    ensures outcome.Scheduled? ==>
              var inst := InstanceOf(courses, avail, roster);
              && outcome.values == solve(outcome.model).values
              && Valid(inst, outcome.values.slot)
              && Reified(inst, outcome.values)
              && IsMakespan(outcome.values)
              && outcome.grade.Keys == Values(courses)
              && (forall k :: k in outcome.model.maxOver ==> k in outcome.values.slot)
              && forall c :: c in outcome.grade ==>
                   outcome.grade[c] == Row(outcome.model.maxOver, outcome.values.slot, c, Horizon(inst))
    ensures outcome.Scheduled? ==>
              ListsEachExamOnce(InstanceOf(courses, avail, roster), outcome.values.slot, outcome.grade)
  {
    if courses == [] {
      return Crashed(NoCourses);
    }
    if !AgendaCovered(avail) {
      return Crashed(MissingDayRow);
    }
    if !Enrolled(courses, roster) {
      return Crashed(UnknownCourse);
    }
    assert courses[0] in Values(courses);
    var spd := SlotsPerDay(courses, avail);
    var free := FreeTable(avail, spd);
    var discByCourse, discByStudent := BuildDemand(courses, roster);
    var coursesByDisc := IndexBySubject(courses, discByCourse);
    var inst := Instance(spd, |Agenda|, courses, free, discByCourse, discByStudent, coursesByDisc);
    assert inst == InstanceOf(courses, avail, roster);
    InstanceWellFormed(courses, avail, roster);
    var model := BuildModel(inst);
    var answer := solve(model);
    if !Solved(answer.status) {
      return NoSolution(model, answer.status);
    }
    SatisfiesImpliesValid(inst, model, answer.values);
    assert forall k :: k in model.maxOver ==> k in Values(model.maxOver);
    var grade := Extract(courses, Horizon(inst), model.maxOver, answer.values.slot);
    GridListsEachExamOnce(inst, model.maxOver, answer.values.slot, grade);
    outcome := Scheduled(model, answer.status, answer.values, grade);
  }

  // ---------------------------------------------------------------- what the inputs decide

  /** A course that must schedule a subject but has no free slot leaves no
      valid timetable, so a trusted solver never reports one. */
  lemma EmptyDomainLeavesNoTimetable(inst: Instance, c: Course, d: Subject, slot: map<SlotKey, int>)
    requires c in inst.discByCourse && d in inst.discByCourse[c] && c in inst.free && inst.free[c] == []
    ensures !Valid(inst, slot)
  {
    assert (c, d) in Vars(inst.discByCourse);
  }
}
