/** Small instances on which the timetable rules decide the outcome by
    themselves, whatever the solver does: one course with one day-instance,
    or two courses sharing a subject. */
module Scenarios {
  import opened Entities
  import opened Calendar
  import opened Demand
  import opened ConstraintModel

  /** One course `A` with one student owing `subjects`, one day-instance of
      `spd` periods and the free slots `free`. */
  function OneCourse(spd: nat, free: seq<nat>, subjects: set<Subject>): Instance {
    var discByCourse := map["A" := subjects];
    Instance(spd, 1, ["A"], map["A" := free], discByCourse, map[("A", "s") := subjects],
             map d | d in subjects :: ["A"])
  }

  /** A one-course instance has the shape the script builds: its subject
      index is `courses_by_disc` as built from the course's subjects. */
  lemma OneCourseWellFormed(spd: nat, free: seq<nat>, subjects: set<Subject>)
    ensures WellFormed(OneCourse(spd, free, subjects))
  {
    var inst := OneCourse(spd, free, subjects);
    assert ["A"][..0] == [];
    forall d | d in subjects
      ensures d in SubjectsNeeded(["A"], inst.discByCourse)
      ensures CoursesNeeding(["A"], inst.discByCourse, d) == ["A"]
    {
      assert "A" in ["A"] && d in inst.discByCourse["A"];
    }
  }

  /** One day-instance of two periods, both free, and two subjects. */
  function TwoPeriods(): Instance {
    OneCourse(2, [0, 1], {"X", "Y"})
  }

  /** The free slots of `TwoPeriods` are those read from a single day of two
      free periods. */
  lemma TwoPeriodsReadFromFlags()
    ensures WellFormed(TwoPeriods())
    ensures TwoPeriods().free["A"] == FreeSlots(2, ["seg"], map["seg" := [0, 0]])
  {
    OneCourseWellFormed(2, [0, 1], {"X", "Y"});
    assert RowFree(2, 0, [0, 0], 1) == [0];
  }

  /** `X` in period 0 and `Y` in period 1. */
  function OnePerPeriod(): map<SlotKey, int> {
    map[("A", "X") := 0, ("A", "Y") := 1]
  }

  lemma XIsNotY()
    ensures "X" != "Y"
  {
    assert "X"[0] == 'X' && "Y"[0] == 'Y';
  }

  lemma OnePerPeriodInDomain()
    ensures InDomain(TwoPeriods(), OnePerPeriod())
  {
    assert Vars(TwoPeriods().discByCourse) == {("A", "X"), ("A", "Y")};
  }

  lemma OnePerPeriodNoClash()
    ensures NoClash(TwoPeriods(), OnePerPeriod())
  {
    XIsNotY();
  }

  lemma OnePerPeriodWithinCap()
    ensures WithinDailyCap(TwoPeriods(), OnePerPeriod())
  {
    var inst := TwoPeriods();
    forall k, di: nat | k in inst.discByStudent && di < inst.nDays
      ensures |DayLoad(OnePerPeriod(), inst.spd, k.0, inst.discByStudent[k], di)| <= MaxDaily
    {
      XIsNotY();
      InDayRange(2, 0, 0);
      InDayRange(2, 0, 1);
      assert DayLoad(OnePerPeriod(), inst.spd, k.0, inst.discByStudent[k], di) == {"X", "Y"};
    }
  }

  /** Two free periods and two subjects: one subject per period is a valid
      timetable. */
  lemma TwoPeriodsFitTwoSubjects()
    ensures Valid(TwoPeriods(), OnePerPeriod())
  {
    OnePerPeriodInDomain();
    OnePerPeriodNoClash();
    OnePerPeriodWithinCap();
  }

  /** Two free periods and two subjects: every valid timetable uses both
      periods, one subject each, so its makespan is 1. */
  lemma TwoSubjectsTakeBothPeriods(slot: map<SlotKey, int>)
    ensures Valid(TwoPeriods(), slot) ==>
              ("A", "X") in slot && ("A", "Y") in slot && {slot[("A", "X")], slot[("A", "Y")]} == {0, 1}
    ensures Valid(TwoPeriods(), slot) ==>
              (if slot[("A", "X")] < slot[("A", "Y")] then slot[("A", "Y")] else slot[("A", "X")]) == 1
  {
    var inst := TwoPeriods();
    XIsNotY();
    if Valid(inst, slot) {
      assert ("A", "X") in Vars(inst.discByCourse) && ("A", "Y") in Vars(inst.discByCourse);
      assert ("A", "s") in inst.discByStudent;
      assert slot[("A", "X")] != slot[("A", "Y")];
    }
  }

  /** Two subjects but one free period: the student's exams cannot be apart. */
  lemma OneFreePeriodIsInfeasible(slot: map<SlotKey, int>)
    ensures !Valid(OneCourse(2, [0], {"X", "Y"}), slot)
  {
    var inst := OneCourse(2, [0], {"X", "Y"});
    assert ("A", "X") in Vars(inst.discByCourse) && ("A", "Y") in Vars(inst.discByCourse);
    assert ("A", "s") in inst.discByStudent;
    if InDomain(inst, slot) {
      assert slot[("A", "X")] == slot[("A", "Y")];
      assert !Apart(slot, "A", {"X", "Y"});
    }
  }

  /** Four subjects on a single day-instance exceed the daily cap of three. */
  lemma FourSubjectsInOneDayIsInfeasible(slot: map<SlotKey, int>)
    ensures !Valid(OneCourse(4, [0, 1, 2, 3], {"X", "Y", "Z", "W"}), slot)
  {
    var inst := OneCourse(4, [0, 1, 2, 3], {"X", "Y", "Z", "W"});
    var ds: set<Subject> := {"X", "Y", "Z", "W"};
    assert "X" != "Y" && "X" != "Z" && "X" != "W" && "Y" != "Z" && "Y" != "W" && "Z" != "W" by {
      assert "X"[0] == 'X' && "Y"[0] == 'Y' && "Z"[0] == 'Z' && "W"[0] == 'W';
    }
    assert |ds| == 4;
    if InDomain(inst, slot) {
      forall d | d in ds ensures d in DayLoad(slot, 4, "A", ds, 0) {
        assert ("A", d) in Vars(inst.discByCourse);
        InDayRange(4, 0, slot[("A", d)]);
      }
      assert DayLoad(slot, 4, "A", ds, 0) == ds;
      assert ("A", "s") in inst.discByStudent && inst.discByStudent[("A", "s")] == ds;
      assert !WithinDailyCap(inst, slot);
    }
  }

  /** Two courses whose only free period is slot 0, both owing `Z`. */
  function SharedSubject(): Instance {
    var discByCourse := map["A" := {"Z"}, "B" := {"Z"}];
    Instance(1, 1, ["A", "B"], map["A" := [0], "B" := [0]], discByCourse,
             map[("A", "s") := {"Z"}, ("B", "t") := {"Z"}], map["Z" := ["A", "B"]])
  }

  /** The shared subject is held once, in slot 0, for both courses. */
  lemma SharedSubjectIsSynchronised(slot: map<SlotKey, int>)
    requires Valid(SharedSubject(), slot)
    ensures ("A", "Z") in slot && ("B", "Z") in slot && slot[("A", "Z")] == slot[("B", "Z")] == 0
  {
    var inst := SharedSubject();
    assert ("A", "Z") in Vars(inst.discByCourse) && ("B", "Z") in Vars(inst.discByCourse);
    assert 0 in Values(inst.free["A"]) * Values(inst.free["B"]);
    assert Shared(inst, "A", "B", "Z");
  }
}
