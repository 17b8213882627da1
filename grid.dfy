/** The per-course grid the script prints and saves: for each course, one
    cell per slot of the horizon, holding the subjects examined there in the
    order the exam variables were declared. */
module ScheduleGrid {
  import opened Entities
  import opened ConstraintModel

  /** `grade`: course to one list of subjects per slot. */
  type Grid = map<Course, seq<seq<Subject>>>

  /** The subjects of course `c` whose value is `v`, in `order`. */
  function Cell(order: seq<SlotKey>, value: map<SlotKey, int>, c: Course, v: int): seq<Subject>
    requires forall k :: k in order ==> k in value
  {
    if order == [] then []
    else
      var k := order[|order| - 1];
      Cell(order[..|order| - 1], value, c, v) + (if k.0 == c && value[k] == v then [k.1] else [])
  }

  /** The row of course `c`: one cell per slot `0 .. horizon-1`. */
  function Row(order: seq<SlotKey>, value: map<SlotKey, int>, c: Course, horizon: nat): seq<seq<Subject>>
    requires forall k :: k in order ==> k in value
  {
    seq(horizon, v requires 0 <= v < horizon => Cell(order, value, c, v))
  }

  /** The subjects of course `c` in `order`. */
  function Owned(order: seq<SlotKey>, c: Course): seq<Subject> {
    if order == [] then []
    else
      var k := order[|order| - 1];
      Owned(order[..|order| - 1], c) + (if k.0 == c then [k.1] else [])
  }

  /** Number of subjects in a row, all cells together. */
  function Load(row: seq<seq<Subject>>): nat {
    if row == [] then 0 else Load(row[..|row| - 1]) + |row[|row| - 1]|
  }

  /** Appending one more exam changes only the cell at its value. */
  lemma RowSnoc(order: seq<SlotKey>, k: SlotKey, value: map<SlotKey, int>, c: Course, horizon: nat)
    requires (forall k' :: k' in order ==> k' in value) && k in value && 0 <= value[k] < horizon
    ensures Row(order + [k], value, c, horizon) ==
              if k.0 == c then Row(order, value, c, horizon)[value[k] := Row(order, value, c, horizon)[value[k]] + [k.1]]
              else Row(order, value, c, horizon)
  {
    var next := order + [k];
    assert next[..|next| - 1] == order;
    var before := Row(order, value, c, horizon);
    var after := Row(next, value, c, horizon);
    if k.0 == c {
      var bumped := before[value[k] := before[value[k]] + [k.1]];
      forall v | 0 <= v < horizon ensures after[v] == bumped[v] {
        assert after[v] == Cell(order, value, c, v) + (if value[k] == v then [k.1] else []);
      }
      assert after == bumped;
    } else {
      forall v | 0 <= v < horizon ensures after[v] == before[v] {
        assert after[v] == Cell(order, value, c, v) + [];
      }
      assert after == before;
    }
  }

  /** main.py:75-77: an empty cell for every course and slot, then each exam
      appended to the cell of its course at its value, in `slot` order. */
  method Extract(courses: seq<Course>, horizon: nat, order: seq<SlotKey>, value: map<SlotKey, int>)
    returns (grade: Grid)
    requires forall k :: k in order ==> k.0 in courses && k in value && 0 <= value[k] < horizon
    ensures grade.Keys == Values(courses)
    ensures forall c :: c in grade ==> grade[c] == Row(order, value, c, horizon)
  {
    var empty: seq<seq<Subject>> := seq(horizon, _ => []);
    grade := map c | c in courses :: empty;
    assert order[..0] == [];
    for i := 0 to |order|
      invariant grade.Keys == Values(courses)
      invariant forall c :: c in grade ==> grade[c] == Row(order[..i], value, c, horizon)
    {
      var (c, d) := order[i];
      var v := value[(c, d)];
      assert order[..i + 1] == order[..i] + [order[i]];
      forall c' | c' in grade
        ensures Row(order[..i + 1], value, c', horizon) ==
                  if c' == c then grade[c][v := grade[c][v] + [d]] else grade[c']
      {
        RowSnoc(order[..i], order[i], value, c', horizon);
      }
      grade := grade[c := grade[c][v := grade[c][v] + [d]]];
    }
    assert order[..|order|] == order;
  }

  // ---------------------------------------------------------------- what a cell holds

  /** A subject is in the cell of slot `v` exactly when its exam was given
      value `v`, and no cell lists a subject twice: each exam appears once,
      at its value. */
  lemma {:induction false} CellFacts(order: seq<SlotKey>, value: map<SlotKey, int>, c: Course, v: int)
    requires forall k :: k in order ==> k in value
    ensures forall d :: d in Cell(order, value, c, v) <==> (c, d) in order && value[(c, d)] == v
    ensures NoDup(order) ==> NoDup(Cell(order, value, c, v))
  {
    if order != [] {
      var init := order[..|order| - 1];
      var k := order[|order| - 1];
      assert order == init + [k];
      CellFacts(init, value, c, v);
      if NoDup(order) {
        assert NoDup(init);
        assert k !in init;
      }
    }
  }

  lemma {:induction false} OwnedFacts(order: seq<SlotKey>, c: Course)
    ensures forall d :: d in Owned(order, c) <==> (c, d) in order
    ensures NoDup(order) ==> NoDup(Owned(order, c))
  {
    if order != [] {
      var init := order[..|order| - 1];
      var k := order[|order| - 1];
      assert order == init + [k];
      OwnedFacts(init, c);
      if NoDup(order) {
        assert NoDup(init);
        assert k !in init;
      }
    }
  }

  /** Adding one subject to one cell adds one to the row's load. */
  lemma {:induction false} LoadBump(row: seq<seq<Subject>>, i: nat, d: Subject)
    requires i < |row|
    ensures Load(row[i := row[i] + [d]]) == Load(row) + 1
  {
    var bumped := row[i := row[i] + [d]];
    assert bumped[..|bumped| - 1] == if i == |row| - 1 then row[..|row| - 1] else row[..|row| - 1][i := row[i] + [d]];
    if i < |row| - 1 {
      LoadBump(row[..|row| - 1], i, d);
    }
  }

  lemma {:induction false} LoadOfEmpty(horizon: nat)
    ensures Load(seq(horizon, _ => [])) == 0
  {
    if horizon > 0 {
      var row: seq<seq<Subject>> := seq(horizon, _ => []);
      assert row[..horizon - 1] == seq(horizon - 1, _ => []);
      LoadOfEmpty(horizon - 1);
    }
  }

  /** The cells of a row hold, all together, one entry per exam of the course. */
  lemma {:induction false} RowLoad(order: seq<SlotKey>, value: map<SlotKey, int>, c: Course, horizon: nat)
    requires forall k :: k in order ==> k in value && 0 <= value[k] < horizon
    ensures Load(Row(order, value, c, horizon)) == |Owned(order, c)|
  {
    if order == [] {
      assert Row(order, value, c, horizon) == seq(horizon, _ => []);
      LoadOfEmpty(horizon);
    } else {
      var init := order[..|order| - 1];
      var k := order[|order| - 1];
      assert order == init + [k];
      RowLoad(init, value, c, horizon);
      RowSnoc(init, k, value, c, horizon);
      if k.0 == c {
        LoadBump(Row(init, value, c, horizon), value[k], k.1);
      }
    }
  }

  // ---------------------------------------------------------------- the grid of a timetable

  /** Every exam of course `c` appears in exactly one cell of its row, the
      cell of its slot, and the cells of the row together hold as many
      entries as the course has subjects to schedule. */
  lemma GridHoldsEachExamOnce(inst: Instance, order: seq<SlotKey>, slot: map<SlotKey, int>, c: Course)
    requires InDomain(inst, slot)
    requires NoDup(order) && Values(order) == Vars(inst.discByCourse) && c in inst.discByCourse
    ensures forall v, d :: 0 <= v < Horizon(inst) ==>
              (d in Row(order, slot, c, Horizon(inst))[v] <==> d in inst.discByCourse[c] && slot[(c, d)] == v)
    ensures forall v :: 0 <= v < Horizon(inst) ==> NoDup(Row(order, slot, c, Horizon(inst))[v])
    ensures Load(Row(order, slot, c, Horizon(inst))) == |inst.discByCourse[c]|
  {
    assert forall k :: k in order <==> k in Values(order);
    forall v | 0 <= v < Horizon(inst) {
      CellFacts(order, slot, c, v);
    }
    RowLoad(order, slot, c, Horizon(inst));
    OwnedFacts(order, c);
    DistinctCount(Owned(order, c));
    assert Values(Owned(order, c)) == inst.discByCourse[c];
  }

  /** Each row of `grade` lists, cell by cell, exactly the subjects its course
      sits in that slot, none twice, and holds each of the course's exams once. */
  ghost predicate ListsEachExamOnce(inst: Instance, slot: map<SlotKey, int>, grade: Grid) {
    forall c :: c in grade ==>
      && c in inst.discByCourse
      && |grade[c]| == Horizon(inst)
      && (forall v, d :: 0 <= v < Horizon(inst) ==>
            (d in grade[c][v] <==> d in inst.discByCourse[c] && (c, d) in slot && slot[(c, d)] == v))
      && (forall v :: 0 <= v < Horizon(inst) ==> NoDup(grade[c][v]))
      && Load(grade[c]) == |inst.discByCourse[c]|
  }

  /** The grid extracted from a timetable whose slots lie in their domains
      lists each exam once. */
  lemma GridListsEachExamOnce(inst: Instance, order: seq<SlotKey>, slot: map<SlotKey, int>, grade: Grid)
    requires InDomain(inst, slot)
    requires NoDup(order) && Values(order) == Vars(inst.discByCourse)
    requires grade.Keys <= inst.discByCourse.Keys
    requires forall c :: c in grade ==> grade[c] == Row(order, slot, c, Horizon(inst))
    ensures ListsEachExamOnce(inst, slot, grade)
  {
    forall c | c in grade {
      GridHoldsEachExamOnce(inst, order, slot, c);
    }
  }

  /** In a timetable that keeps its domains, every occupied cell is a free
      slot of its course. */
  lemma OccupiedCellsAreFree(inst: Instance, order: seq<SlotKey>, slot: map<SlotKey, int>, c: Course, v: int)
    requires InDomain(inst, slot) && Values(order) == Vars(inst.discByCourse)
    requires Cell(order, slot, c, v) != []
    ensures c in inst.free && v in inst.free[c]
  {
    CellFacts(order, slot, c, v);
    var d := Cell(order, slot, c, v)[0];
    assert d in Cell(order, slot, c, v);
  }

  /** In a timetable without clashes, no cell holds two subjects of one student. */
  lemma NoStudentTwiceInCell(inst: Instance, order: seq<SlotKey>, slot: map<SlotKey, int>, k: StudentKey, v: int,
                             d1: Subject, d2: Subject)
    requires InDomain(inst, slot) && NoClash(inst, slot) && Values(order) == Vars(inst.discByCourse)
    requires k in inst.discByStudent && d1 in inst.discByStudent[k] && d2 in inst.discByStudent[k]
    requires d1 in Cell(order, slot, k.0, v) && d2 in Cell(order, slot, k.0, v)
    ensures d1 == d2
  {
    CellFacts(order, slot, k.0, v);
  }
}
