/** The scheduling rules and the loops that post them. `Valid` states the rules
    directly over an assignment of slots to (course, subject) exams; the
    methods build the CP-SAT model the script submits, one method per posting
    loop, each proved against a description of what it posts. */
module ConstraintModel {
  import opened Entities
  import opened Calendar
  import opened Demand
  import opened CpSat

  /** At most this many exams per student per day-instance. */
  const MaxDaily: int := 3

  /** Everything the posting loops read: the calendar and the demand indexes. */
  datatype Instance = Instance(
    spd: nat,
    nDays: nat,
    courses: seq<Course>,
    free: map<Course, seq<nat>>,
    discByCourse: map<Course, set<Subject>>,
    discByStudent: map<StudentKey, set<Subject>>,
    coursesByDisc: map<Subject, seq<Course>>)

  /** The shape the script's dictionaries give the instance: every course of
      the timetable (the keys of `horarios`, in order) has a free list and a
      subject set, each student's subjects belong to the student's course, and
      `coursesByDisc` is the inverse of `discByCourse`. */
  predicate WellFormed(inst: Instance) {
    && NoDup(inst.courses)
    && inst.free.Keys == Values(inst.courses)
    && inst.discByCourse.Keys == Values(inst.courses)
    && (forall k :: k in inst.discByStudent ==>
          k.0 in inst.discByCourse && inst.discByStudent[k] <= inst.discByCourse[k.0])
    && inst.coursesByDisc == CoursesBySubject(inst.courses, inst.discByCourse)
  }

  function Horizon(inst: Instance): nat {
    TotalSlots(inst.nDays, inst.spd)
  }

  /** The exam variables: one per course and subject the course must schedule. */
  function Vars(discByCourse: map<Course, set<Subject>>): set<SlotKey> {
    set c, d | c in discByCourse && d in discByCourse[c] :: (c, d)
  }

  /** `set(free[c1]) & set(free[c2])` is not empty. */
  predicate Overlap(f1: seq<nat>, f2: seq<nat>) {
    Values(f1) * Values(f2) != {}
  }

  // ---------------------------------------------------------------- the rules

  /** Every exam has a slot, drawn from its course's free slots and inside the horizon. */
  predicate InDomain(inst: Instance, slot: map<SlotKey, int>) {
    && slot.Keys == Vars(inst.discByCourse)
    && forall k :: k in slot ==>
         k.0 in inst.free && slot[k] in inst.free[k.0] && 0 <= slot[k] < Horizon(inst)
  }

  /** No two subjects of `ds` in course `c` share a slot. */
  predicate Apart(slot: map<SlotKey, int>, c: Course, ds: set<Subject>) {
    forall d1, d2 :: d1 in ds && d2 in ds && d1 != d2 && (c, d1) in slot && (c, d2) in slot ==>
      slot[(c, d1)] != slot[(c, d2)]
  }

  /** The subjects of `ds` in course `c` that fall on day-instance `di`. */
  function DayLoad(slot: map<SlotKey, int>, spd: nat, c: Course, ds: set<Subject>, di: nat): set<Subject> {
    set d | d in ds && (c, d) in slot && InDay(spd, di, slot[(c, d)]) == 1
  }

  /** Subject `d` is needed by two different courses whose free slots meet. */
  predicate Shared(inst: Instance, c1: Course, c2: Course, d: Subject) {
    && c1 in inst.discByCourse && c2 in inst.discByCourse && c1 != c2
    && d in inst.discByCourse[c1] && d in inst.discByCourse[c2]
    && c1 in inst.free && c2 in inst.free && Overlap(inst.free[c1], inst.free[c2])
  }

  /** No student sits two of their subjects in the same slot. */
  predicate NoClash(inst: Instance, slot: map<SlotKey, int>) {
    forall k :: k in inst.discByStudent ==> Apart(slot, k.0, inst.discByStudent[k])
  }

  /** No student has more than `MaxDaily` exams on any day-instance. */
  ghost predicate WithinDailyCap(inst: Instance, slot: map<SlotKey, int>) {
    forall k, di: nat :: k in inst.discByStudent && di < inst.nDays ==>
      |DayLoad(slot, inst.spd, k.0, inst.discByStudent[k], di)| <= MaxDaily
  }

  /** A subject shared by two courses with a common free slot is held in one session. */
  ghost predicate Synchronised(inst: Instance, slot: map<SlotKey, int>) {
    forall c1, c2, d :: Shared(inst, c1, c2, d) && (c1, d) in slot && (c2, d) in slot ==>
      slot[(c1, d)] == slot[(c2, d)]
  }

  /** The timetable rules: domains, no student double-booked, at most
      `MaxDaily` exams per student per day-instance, and shared subjects
      synchronised. */
  ghost predicate Valid(inst: Instance, slot: map<SlotKey, int>) {
    InDomain(inst, slot) && NoClash(inst, slot) && WithinDailyCap(inst, slot) && Synchronised(inst, slot)
  }

  // ---------------------------------------------------------------- exam variables

  /** The domains of the exam variables: the free slots of the course. */
  function SlotDomains(inst: Instance): map<SlotKey, set<int>> {
    map k | k in Vars(inst.discByCourse) :: if k.0 in inst.free then Values(inst.free[k.0]) else {}
  }

  /** main.py:38-42: for each course in order and each of its subjects, an
      exam variable over the course's free slots. `order` is the insertion
      order of `slot`, which later loops follow. */
  method DeclareSlots(inst: Instance) returns (domains: map<SlotKey, set<int>>, order: seq<SlotKey>)
    requires WellFormed(inst)
    ensures domains == SlotDomains(inst)
    ensures NoDup(order) && Values(order) == Vars(inst.discByCourse)
  {
    domains := map[];
    order := [];
    for i := 0 to |inst.courses|
      invariant forall k :: k in domains <==> k.0 in inst.courses[..i] && k.1 in inst.discByCourse[k.0]
      invariant forall k :: k in domains ==> domains[k] == Values(inst.free[k.0])
      invariant NoDup(order) && forall k :: k in order <==> k in domains
    {
      var c := inst.courses[i];
      var pending := inst.discByCourse[c];
      assert c !in inst.courses[..i];
      assert inst.courses[..i + 1] == inst.courses[..i] + [c];
      while pending != {}
        invariant pending <= inst.discByCourse[c]
        invariant forall k :: k in domains <==>
                    (k.0 in inst.courses[..i] && k.1 in inst.discByCourse[k.0]) ||
                    (k.0 == c && k.1 in inst.discByCourse[c] - pending)
        invariant forall k :: k in domains ==> domains[k] == Values(inst.free[k.0])
        invariant NoDup(order) && forall k :: k in order <==> k in domains
        decreases pending
      {
        var d :| d in pending;
        domains := domains[(c, d) := Values(inst.free[c])];
        order := order + [(c, d)];
        pending := pending - {d};
      }
    }
    assert inst.courses[..|inst.courses|] == inst.courses;
    assert domains.Keys == SlotDomains(inst).Keys;
  }

  // ---------------------------------------------------------------- distinctness

  /** `combinations(ds, 2)`: each unordered pair of distinct elements once, in
      some order. */
  method Combinations(ds: set<Subject>) returns (pairs: set<(Subject, Subject)>)
    ensures forall p :: p in pairs ==> p.0 in ds && p.1 in ds && p.0 != p.1 && (p.1, p.0) !in pairs
    ensures forall d1, d2 :: d1 in ds && d2 in ds && d1 != d2 ==> (d1, d2) in pairs || (d2, d1) in pairs
  {
    pairs := {};
    var rest := ds;
    while rest != {}
      invariant rest <= ds
      invariant forall p :: p in pairs ==> p.0 in ds - rest && p.1 in ds && p.0 != p.1 && (p.1, p.0) !in pairs
      invariant forall d1, d2 :: d1 in ds && d2 in ds && d1 != d2 && (d1 !in rest || d2 !in rest) ==>
                  (d1, d2) in pairs || (d2, d1) in pairs
      decreases rest
    {
      var d1 :| d1 in rest;
      rest := rest - {d1};
      pairs := pairs + set d2 | d2 in rest :: (d1, d2);
    }
  }

  /** `p` is a pair of distinct subjects of student `k`, as exam variables. */
  predicate PairOf(k: StudentKey, ds: set<Subject>, p: (SlotKey, SlotKey)) {
    p.0.0 == k.0 && p.1.0 == k.0 && p.0.1 in ds && p.1.1 in ds && p.0.1 != p.1.1
  }

  /** What main.py:44-46 posts: only pairs of one student's subjects, and every
      such pair in one orientation or the other. */
  ghost predicate DistinctPosted(differ: set<(SlotKey, SlotKey)>, discByStudent: map<StudentKey, set<Subject>>) {
    && (forall p :: p in differ ==> exists k :: k in discByStudent && PairOf(k, discByStudent[k], p))
    && (forall k, d1, d2 :: k in discByStudent && d1 in discByStudent[k] && d2 in discByStudent[k] && d1 != d2 ==>
          ((k.0, d1), (k.0, d2)) in differ || ((k.0, d2), (k.0, d1)) in differ)
  }

  /** main.py:44-46: for every student and every pair of the student's
      subjects, the two exams differ. */
  method PostDistinct(discByStudent: map<StudentKey, set<Subject>>) returns (differ: set<(SlotKey, SlotKey)>)
    ensures DistinctPosted(differ, discByStudent)
  {
    differ := {};
    var todo := discByStudent.Keys;
    while todo != {}
      invariant todo <= discByStudent.Keys
      invariant forall p :: p in differ ==> exists k :: k in discByStudent && PairOf(k, discByStudent[k], p)
      invariant forall k, d1, d2 ::
                  k in discByStudent && k !in todo && d1 in discByStudent[k] && d2 in discByStudent[k] && d1 != d2 ==>
                  ((k.0, d1), (k.0, d2)) in differ || ((k.0, d2), (k.0, d1)) in differ
      decreases todo
    {
      var k :| k in todo;
      var c := k.0;
      var pairs := Combinations(discByStudent[k]);
      var posted := set p | p in pairs :: ((c, p.0), (c, p.1));
      forall q | q in posted ensures PairOf(k, discByStudent[k], q) {
        var p :| p in pairs && q == ((c, p.0), (c, p.1));
      }
      forall d1, d2 | d1 in discByStudent[k] && d2 in discByStudent[k] && d1 != d2
        ensures ((c, d1), (c, d2)) in posted || ((c, d2), (c, d1)) in posted
      {
        if (d1, d2) in pairs {
          assert ((c, d1), (c, d2)) in posted;
        } else {
          assert ((c, d2), (c, d1)) in posted;
        }
      }
      differ := differ + posted;
      todo := todo - {k};
    }
  }

  // ---------------------------------------------------------------- day indicators

  /** The day indicators and their tables: one per exam variable and day-instance. */
  function DayLinks(inst: Instance): map<DayKey, seq<(int, int)>> {
    map x | x in (set k, di | k in Vars(inst.discByCourse) && 0 <= di < inst.nDays :: (k.0, k.1, di)) ::
      DayTable(inst.spd, inst.nDays, x.2)
  }

  lemma DayLinkKeys(inst: Instance, x: DayKey)
    ensures x in DayLinks(inst) <==> (x.0, x.1) in Vars(inst.discByCourse) && x.2 < inst.nDays
  {
    if (x.0, x.1) in Vars(inst.discByCourse) && x.2 < inst.nDays {
      var k := (x.0, x.1);
      assert x == (k.0, k.1, x.2);
    }
  }

  /** main.py:48-54: for every exam variable (in `slot` order) and every
      day-instance, a boolean tied to the exam by the day's table. */
  method LinkDays(inst: Instance, order: seq<SlotKey>) returns (links: map<DayKey, seq<(int, int)>>)
    requires Values(order) == Vars(inst.discByCourse)
    ensures links == DayLinks(inst)
  {
    links := map[];
    for i := 0 to |order|
      invariant forall x :: x in links <==> (x.0, x.1) in order[..i] && x.2 < inst.nDays
      invariant forall x :: x in links ==> links[x] == DayTable(inst.spd, inst.nDays, x.2)
    {
      var (c, d) := order[i];
      assert order[..i + 1] == order[..i] + [order[i]];
      for di := 0 to inst.nDays
        invariant forall x :: x in links <==>
                    ((x.0, x.1) in order[..i] && x.2 < inst.nDays) || (x.0 == c && x.1 == d && x.2 < di)
        invariant forall x :: x in links ==> links[x] == DayTable(inst.spd, inst.nDays, x.2)
      {
        links := links[(c, d, di) := DayTable(inst.spd, inst.nDays, di)];
      }
    }
    assert order[..|order|] == order;
    ghost var spec := DayLinks(inst);
    forall x: DayKey | (x.0, x.1) in Vars(inst.discByCourse) && x.2 < inst.nDays ensures x in spec {
      var k := (x.0, x.1);
      assert x == (k.0, k.1, x.2);
    }
    assert links.Keys == spec.Keys;
  }

  // ---------------------------------------------------------------- daily cap

  /** Python iterates a set in some order: a list of its elements, each once. */
  method ListOf(ds: set<Subject>) returns (list: seq<Subject>)
    ensures NoDup(list) && Values(list) == ds
  {
    list := [];
    var rest := ds;
    while rest != {}
      invariant rest <= ds
      invariant NoDup(list) && Values(list) == ds - rest
      decreases rest
    {
      var d :| d in rest;
      assert Values(list + [d]) == Values(list) + {d};
      list := list + [d];
      rest := rest - {d};
    }
  }

  /** What main.py:56-58 posts: one cap per student and day-instance, summing
      the day indicators of each of the student's subjects once. */
  ghost predicate CapsPosted(caps: map<(StudentKey, nat), seq<Subject>>, discByStudent: map<StudentKey, set<Subject>>, nDays: nat) {
    && (forall key :: key in caps <==> key.0 in discByStudent && key.1 < nDays)
    && (forall key :: key in caps ==> NoDup(caps[key]) && Values(caps[key]) == discByStudent[key.0])
  }

  /** main.py:56-58: for every student and day-instance, the sum of the
      student's day indicators is at most `MaxDaily`. */
  method PostCaps(discByStudent: map<StudentKey, set<Subject>>, nDays: nat)
    returns (caps: map<(StudentKey, nat), seq<Subject>>)
    ensures CapsPosted(caps, discByStudent, nDays)
  {
    caps := map[];
    var todo := discByStudent.Keys;
    while todo != {}
      invariant todo <= discByStudent.Keys
      invariant forall key :: key in caps <==> key.0 in discByStudent && key.0 !in todo && key.1 < nDays
      invariant forall key :: key in caps ==> NoDup(caps[key]) && Values(caps[key]) == discByStudent[key.0]
      decreases todo
    {
      var k :| k in todo;
      var list := ListOf(discByStudent[k]);
      for di := 0 to nDays
        invariant forall key :: key in caps <==>
                    (key.0 in discByStudent && key.0 !in todo && key.1 < nDays) || (key.0 == k && key.1 < di)
        invariant forall key :: key in caps ==> NoDup(caps[key]) && Values(caps[key]) == discByStudent[key.0]
      {
        caps := caps[(k, di) := list];
      }
      todo := todo - {k};
    }
  }

  // ---------------------------------------------------------------- synchronisation

  /** What main.py:60-63 posts: for each subject and each pair `i < j` of the
      courses needing it whose free slots meet, the two exams are equal. */
  function SyncPairs(inst: Instance): set<(SlotKey, SlotKey)> {
    var cbd := inst.coursesByDisc;
    set d, i, j | d in cbd && 0 <= i < j < |cbd[d]| && cbd[d][i] in inst.free && cbd[d][j] in inst.free &&
                  Overlap(inst.free[cbd[d][i]], inst.free[cbd[d][j]]) ::
      ((cbd[d][i], d), (cbd[d][j], d))
  }

  /** main.py:60-63: for every subject, every pair of courses needing it whose
      free slots meet hold it in the same slot. */
  method PostSync(inst: Instance) returns (same: set<(SlotKey, SlotKey)>)
    requires forall d, c :: d in inst.coursesByDisc && c in inst.coursesByDisc[d] ==> c in inst.free
    ensures same == SyncPairs(inst)
  {
    var cbd := inst.coursesByDisc;
    same := {};
    var todo := cbd.Keys;
    while todo != {}
      invariant todo <= cbd.Keys
      invariant forall p :: p in same <==> exists d, i, j ::
                  d in cbd && d !in todo && 0 <= i < j < |cbd[d]| &&
                  Overlap(inst.free[cbd[d][i]], inst.free[cbd[d][j]]) && p == ((cbd[d][i], d), (cbd[d][j], d))
      decreases todo
    {
      var d :| d in todo;
      var cs := cbd[d];
      ghost var before := same;
      for i := 0 to |cs|
        invariant forall p :: p in same <==> p in before || exists i', j ::
                    0 <= i' < j < |cs| && i' < i &&
                    Overlap(inst.free[cs[i']], inst.free[cs[j]]) && p == ((cs[i'], d), (cs[j], d))
      {
        for j := i + 1 to |cs|
          invariant forall p :: p in same <==> p in before || exists i', j' ::
                      0 <= i' < j' < |cs| && (i' < i || (i' == i && j' < j)) &&
                      Overlap(inst.free[cs[i']], inst.free[cs[j']]) && p == ((cs[i'], d), (cs[j'], d))
        {
          if Values(inst.free[cs[i]]) * Values(inst.free[cs[j]]) != {} {
            same := same + {((cs[i], d), (cs[j], d))};
          }
        }
      }
      todo := todo - {d};
    }
  }

  // ---------------------------------------------------------------- the whole model

  /** The model main.py:38-66 posts, as what each loop posts. */
  ghost predicate Posted(inst: Instance, m: CpModel) {
    && m.slotDomain == SlotDomains(inst)
    && DistinctPosted(m.differ, inst.discByStudent)
    && m.dayLink == DayLinks(inst)
    && CapsPosted(m.dayCap, inst.discByStudent, inst.nDays) && m.capBound == MaxDaily
    && m.same == SyncPairs(inst)
    && m.latestHi == Horizon(inst) - 1
    && NoDup(m.maxOver) && Values(m.maxOver) == Vars(inst.discByCourse)
  }

  /** main.py:38-66: the exam variables, the distinctness constraints, the day
      indicators and their caps, the synchronisation constraints and the
      makespan `latest` in `0..T_SLOTS-1`. */
  method BuildModel(inst: Instance) returns (m: CpModel)
    requires WellFormed(inst)
    ensures Posted(inst, m)
  {
    CoursesNeedingFacts(inst.courses, inst.discByCourse);
    var domains, order := DeclareSlots(inst);
    var differ := PostDistinct(inst.discByStudent);
    var links := LinkDays(inst, order);
    var caps := PostCaps(inst.discByStudent, inst.nDays);
    var same := PostSync(inst);
    m := CpModel(domains, differ, links, caps, MaxDaily, same, Horizon(inst) - 1, order);
  }
}
