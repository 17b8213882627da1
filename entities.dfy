/** Identifiers shared by every stage of the timetable: courses, students,
    subjects and the day-instance labels of the agenda, all strings as in the
    JSON inputs, plus the small sequence helpers the stages have in common. */
module Entities {

  type Course = string
  type Student = string
  type Subject = string
  type DayLabel = string

  /** One exam variable: subject `d` of course `c` (the key of `slot`). */
  type SlotKey = (Course, Subject)

  /** One day indicator: subject `d` of course `c` on day-instance `di`
      (the key of `bvar`). */
  type DayKey = (Course, Subject, nat)

  /** A student is identified by course and student id (the key of
      `disc_by_student`). */
  type StudentKey = (Course, Student)

  /** No element occurs twice. */
  predicate NoDup<T(==)>(s: seq<T>) {
    forall i, j :: 0 <= i < j < |s| ==> s[i] != s[j]
  }

  /** The elements of a list, as Python's `set(xs)`. */
  function Values<T(==)>(s: seq<T>): set<T> {
    set x | x in s
  }

  /** A list without duplicates has as many elements as its set. */
  lemma {:induction false} DistinctCount<T>(s: seq<T>)
    requires NoDup(s)
    ensures |Values(s)| == |s|
  {
    if s != [] {
      var init := s[..|s| - 1];
      var x := s[|s| - 1];
      assert s == init + [x];
      assert NoDup(init);
      assert x !in init;
      assert Values(s) == Values(init) + {x};
      DistinctCount(init);
    }
  }
}
