/** The posted CP-SAT model means exactly the timetable rules. Every
    assignment that satisfies the model is a valid timetable, its day
    indicators are exactly the day memberships of the exams and `latest` is
    the largest slot used. Conversely, when at least one exam is declared,
    every valid timetable extends to an assignment that satisfies the model,
    so the solver rules out no valid timetable. */
module ModelCorrectness {
  import opened Entities
  import opened Calendar
  import opened Demand
  import opened CpSat
  import opened ConstraintModel

  /** Every day indicator equals the day membership of its exam. */
  ghost predicate Reified(inst: Instance, s: Solution) {
    forall x :: x in s.inDay ==>
      (x.0, x.1) in s.slot && s.inDay[x] == InDay(inst.spd, x.2, s.slot[(x.0, x.1)])
  }

  /** `latest` is one of the exams' slots and no exam comes after it. */
  ghost predicate IsMakespan(s: Solution) {
    && (exists k :: k in s.slot && s.slot[k] == s.latest)
    && (forall k :: k in s.slot ==> s.slot[k] <= s.latest)
  }

  // ---------------------------------------------------------------- facts about the instance

  /** The courses listed for subject `d` are the courses needing it, each once. */
  lemma SharingCourses(inst: Instance, d: Subject)
    requires WellFormed(inst) && d in inst.coursesByDisc
    ensures NoDup(inst.coursesByDisc[d])
    ensures forall c :: c in inst.coursesByDisc[d] <==> c in inst.discByCourse && d in inst.discByCourse[c]
  {
    CoursesNeedingFacts(inst.courses, inst.discByCourse);
  }

  /** A subject shared by two courses whose free slots meet has one posted
      equality between the two exams, in one orientation or the other. */
  lemma SharedIsPosted(inst: Instance, c1: Course, c2: Course, d: Subject)
    requires WellFormed(inst) && Shared(inst, c1, c2, d)
    ensures ((c1, d), (c2, d)) in SyncPairs(inst) || ((c2, d), (c1, d)) in SyncPairs(inst)
  {
    CoursesNeedingFacts(inst.courses, inst.discByCourse);
    assert d in SubjectsNeeded(inst.courses, inst.discByCourse);
    var cs := inst.coursesByDisc[d];
    SharingCourses(inst, d);
    var i :| 0 <= i < |cs| && cs[i] == c1;
    var j :| 0 <= j < |cs| && cs[j] == c2;
    assert Values(inst.free[c1]) * Values(inst.free[c2]) == Values(inst.free[c2]) * Values(inst.free[c1]);
    if i < j {
      assert ((cs[i], d), (cs[j], d)) in SyncPairs(inst);
    } else {
      assert ((cs[j], d), (cs[i], d)) in SyncPairs(inst);
    }
  }

  /** Every posted equality joins two different courses that share the subject
      and have a common free slot. */
  lemma PostedIsShared(inst: Instance, p: (SlotKey, SlotKey))
    requires WellFormed(inst) && p in SyncPairs(inst)
    ensures p.0.1 == p.1.1 && Shared(inst, p.0.0, p.1.0, p.0.1)
  {
    var cbd := inst.coursesByDisc;
    var d, i, j :| d in cbd && 0 <= i < j < |cbd[d]| && cbd[d][i] in inst.free && cbd[d][j] in inst.free &&
                   Overlap(inst.free[cbd[d][i]], inst.free[cbd[d][j]]) &&
                   p == ((cbd[d][i], d), (cbd[d][j], d));
    SharingCourses(inst, d);
    assert cbd[d][i] in cbd[d] && cbd[d][j] in cbd[d];
  }

  // ---------------------------------------------------------------- soundness

  /** The table constraints make each day indicator the exact day membership
      of its exam, and keep the exam inside the horizon. */
  lemma LinksReify(inst: Instance, m: CpModel, s: Solution)
    requires WellFormed(inst) && Posted(inst, m) && DayLinksHold(m, s)
    ensures Reified(inst, s)
  {
    forall x | x in s.inDay
      ensures (x.0, x.1) in s.slot && s.inDay[x] == InDay(inst.spd, x.2, s.slot[(x.0, x.1)])
    {
      DayLinkKeys(inst, x);
      DayTableReifies(inst.spd, inst.nDays, x.2, s.slot[(x.0, x.1)], s.inDay[x]);
    }
  }

  lemma DomainSound(inst: Instance, m: CpModel, s: Solution)
    requires WellFormed(inst) && Posted(inst, m) && DomainsHold(m, s) && MakespanHolds(m, s)
    ensures InDomain(inst, s.slot)
    ensures IsMakespan(s)
  {
    MaxOfIsMaximum(s.slot, m.maxOver);
    var i :| 0 <= i < |m.maxOver| && s.latest == s.slot[m.maxOver[i]];
    assert m.maxOver[i] in Values(m.maxOver);
    forall k | k in s.slot
      ensures k.0 in inst.free && s.slot[k] in inst.free[k.0] && 0 <= s.slot[k] < Horizon(inst)
    {
      assert k in Values(m.maxOver);
    }
  }

  lemma ApartSound(inst: Instance, m: CpModel, s: Solution, k: StudentKey)
    requires WellFormed(inst) && Posted(inst, m) && DifferHolds(m, s)
    requires k in inst.discByStudent
    ensures Apart(s.slot, k.0, inst.discByStudent[k])
  {
    var ds := inst.discByStudent[k];
    forall d1, d2 | d1 in ds && d2 in ds && d1 != d2 && (k.0, d1) in s.slot && (k.0, d2) in s.slot
      ensures s.slot[(k.0, d1)] != s.slot[(k.0, d2)]
    {
      assert ((k.0, d1), (k.0, d2)) in m.differ || ((k.0, d2), (k.0, d1)) in m.differ;
    }
  }

  /** Over a duplicate-free list of subjects whose indicators are their day
      memberships, the sum counts the subjects held on that day-instance. */
  lemma SumIsDayLoad(slot: map<SlotKey, int>, inDay: map<DayKey, int>, spd: nat, c: Course, di: nat, list: seq<Subject>)
    requires NoDup(list)
    requires forall d :: d in list ==>
               (c, d) in slot && (c, d, di) in inDay && inDay[(c, d, di)] == InDay(spd, di, slot[(c, d)])
    ensures IndicatorSum(inDay, c, di, list) == |DayLoad(slot, spd, c, Values(list), di)|
  {
    IndicatorSumCounts(inDay, c, di, list);
    var counted := set d | d in list && inDay[(c, d, di)] == 1;
    assert counted == DayLoad(slot, spd, c, Values(list), di);
  }

  /** With exact indicators, the sum a cap constrains is the number of the
      student's exams on that day-instance. */
  lemma CapCountsDayLoad(inst: Instance, m: CpModel, s: Solution, k: StudentKey, di: nat)
    requires WellFormed(inst) && Posted(inst, m) && InDomain(inst, s.slot) && Reified(inst, s)
    requires s.inDay.Keys == m.dayLink.Keys
    requires k in inst.discByStudent && di < inst.nDays
    ensures (k, di) in m.dayCap
    ensures forall d :: d in m.dayCap[(k, di)] ==> (k.0, d, di) in s.inDay
    ensures IndicatorSum(s.inDay, k.0, di, m.dayCap[(k, di)]) ==
              |DayLoad(s.slot, inst.spd, k.0, inst.discByStudent[k], di)|
  {
    var list := m.dayCap[(k, di)];
    forall d | d in list
      ensures (k.0, d) in s.slot && (k.0, d, di) in s.inDay
      ensures s.inDay[(k.0, d, di)] == InDay(inst.spd, di, s.slot[(k.0, d)])
    {
      assert d in Values(list);
      DayLinkKeys(inst, (k.0, d, di));
    }
    SumIsDayLoad(s.slot, s.inDay, inst.spd, k.0, di, list);
  }

  lemma SyncSound(inst: Instance, m: CpModel, s: Solution, c1: Course, c2: Course, d: Subject)
    requires WellFormed(inst) && Posted(inst, m) && SameHolds(m, s)
    requires Shared(inst, c1, c2, d) && (c1, d) in s.slot && (c2, d) in s.slot
    ensures s.slot[(c1, d)] == s.slot[(c2, d)]
  {
    SharedIsPosted(inst, c1, c2, d);
  }

  /** Whatever the solver reports as OPTIMAL or FEASIBLE is a valid timetable:
      the day indicators are exact and `latest` is its makespan. */
  lemma SatisfiesImpliesValid(inst: Instance, m: CpModel, s: Solution)
    requires WellFormed(inst) && Posted(inst, m) && Satisfies(m, s)
    ensures Valid(inst, s.slot)
    ensures Reified(inst, s)
    ensures IsMakespan(s)
  {
    DomainSound(inst, m, s);
    LinksReify(inst, m, s);
    forall k | k in inst.discByStudent ensures Apart(s.slot, k.0, inst.discByStudent[k]) {
      ApartSound(inst, m, s, k);
    }
    forall k, di: nat | k in inst.discByStudent && di < inst.nDays
      ensures |DayLoad(s.slot, inst.spd, k.0, inst.discByStudent[k], di)| <= MaxDaily
    {
      CapCountsDayLoad(inst, m, s, k, di);
    }
    forall c1, c2, d | Shared(inst, c1, c2, d) && (c1, d) in s.slot && (c2, d) in s.slot
      ensures s.slot[(c1, d)] == s.slot[(c2, d)]
    {
      SyncSound(inst, m, s, c1, c2, d);
    }
  }

  // ---------------------------------------------------------------- completeness

  /** A timetable extended to all the model's variables: each indicator set
      to its exam's day membership and `latest` to the largest slot. */
  function Completion(inst: Instance, m: CpModel, slot: map<SlotKey, int>): Solution {
    var inDay := map x | x in m.dayLink :: if (x.0, x.1) in slot then InDay(inst.spd, x.2, slot[(x.0, x.1)]) else 0;
    var latest := if |m.maxOver| > 0 && forall k :: k in m.maxOver ==> k in slot then MaxOf(slot, m.maxOver) else 0;
    Solution(slot, inDay, latest)
  }

  lemma CompletionDomains(inst: Instance, m: CpModel, s: Solution)
    requires WellFormed(inst) && m.slotDomain == SlotDomains(inst) && InDomain(inst, s.slot)
    ensures DomainsHold(m, s)
  {
  }

  lemma CompletionDiffer(inst: Instance, m: CpModel, s: Solution)
    requires DistinctPosted(m.differ, inst.discByStudent) && NoClash(inst, s.slot)
    requires forall k :: k in inst.discByStudent ==>
               forall d :: d in inst.discByStudent[k] ==> (k.0, d) in s.slot
    ensures DifferHolds(m, s)
  {
    forall p | p in m.differ ensures p.0 in s.slot && p.1 in s.slot && s.slot[p.0] != s.slot[p.1] {
      var k :| k in inst.discByStudent && PairOf(k, inst.discByStudent[k], p);
      assert p == ((k.0, p.0.1), (k.0, p.1.1));
    }
  }

  /** The indicator chosen for exam `x` is its day membership, which the
      exam's table allows. */
  lemma CompletionLinkAt(inst: Instance, m: CpModel, slot: map<SlotKey, int>, x: DayKey)
    requires WellFormed(inst) && Posted(inst, m) && InDomain(inst, slot) && x in m.dayLink
    ensures (x.0, x.1) in slot
    ensures Completion(inst, m, slot).inDay[x] == InDay(inst.spd, x.2, slot[(x.0, x.1)])
    ensures (slot[(x.0, x.1)], InDay(inst.spd, x.2, slot[(x.0, x.1)])) in m.dayLink[x]
  {
    DayLinkKeys(inst, x);
    DayTableReifies(inst.spd, inst.nDays, x.2, slot[(x.0, x.1)], InDay(inst.spd, x.2, slot[(x.0, x.1)]));
  }

  lemma CompletionLinks(inst: Instance, m: CpModel, slot: map<SlotKey, int>)
    requires WellFormed(inst) && Posted(inst, m) && InDomain(inst, slot)
    ensures DayLinksHold(m, Completion(inst, m, slot))
    ensures Reified(inst, Completion(inst, m, slot))
  {
    forall x | x in m.dayLink
      ensures (x.0, x.1) in slot && Completion(inst, m, slot).inDay[x] == InDay(inst.spd, x.2, slot[(x.0, x.1)])
      ensures (slot[(x.0, x.1)], InDay(inst.spd, x.2, slot[(x.0, x.1)])) in m.dayLink[x]
    {
      CompletionLinkAt(inst, m, slot, x);
    }
  }

  lemma CompletionCaps(inst: Instance, m: CpModel, s: Solution)
    requires WellFormed(inst) && Posted(inst, m) && InDomain(inst, s.slot) && WithinDailyCap(inst, s.slot)
    requires Reified(inst, s) && s.inDay.Keys == m.dayLink.Keys
    ensures DayCapsHold(m, s)
  {
    forall key | key in m.dayCap
      ensures (forall d :: d in m.dayCap[key] ==> (key.0.0, d, key.1) in s.inDay)
      ensures IndicatorSum(s.inDay, key.0.0, key.1, m.dayCap[key]) <= m.capBound
    {
      CapCountsDayLoad(inst, m, s, key.0, key.1);
    }
  }

  lemma CompletionSame(inst: Instance, m: CpModel, s: Solution)
    requires WellFormed(inst) && m.same == SyncPairs(inst)
    requires InDomain(inst, s.slot) && Synchronised(inst, s.slot)
    ensures SameHolds(m, s)
  {
    forall p | p in m.same ensures p.0 in s.slot && p.1 in s.slot && s.slot[p.0] == s.slot[p.1] {
      PostedIsShared(inst, p);
      assert p == ((p.0.0, p.0.1), (p.1.0, p.0.1));
    }
  }

  lemma CompletionMakespan(inst: Instance, m: CpModel, slot: map<SlotKey, int>)
    requires WellFormed(inst) && Posted(inst, m) && InDomain(inst, slot) && Vars(inst.discByCourse) != {}
    ensures MakespanHolds(m, Completion(inst, m, slot))
    ensures IsMakespan(Completion(inst, m, slot))
  {
    var k0 :| k0 in Vars(inst.discByCourse);
    assert k0 in Values(m.maxOver);
    assert forall k :: k in m.maxOver ==> k in Values(m.maxOver);
    MaxOfIsMaximum(slot, m.maxOver);
    var i :| 0 <= i < |m.maxOver| && MaxOf(slot, m.maxOver) == slot[m.maxOver[i]];
    forall k | k in slot ensures slot[k] <= MaxOf(slot, m.maxOver) {
      assert k in Values(m.maxOver);
    }
  }

  /** When at least one exam is declared, every valid timetable, extended by
      its indicators and makespan, satisfies the posted model: the model
      excludes no valid timetable. */
  lemma ValidImpliesSatisfies(inst: Instance, m: CpModel, slot: map<SlotKey, int>)
    requires WellFormed(inst) && Posted(inst, m) && Valid(inst, slot)
    requires Vars(inst.discByCourse) != {}
    ensures Satisfies(m, Completion(inst, m, slot))
  {
    var s := Completion(inst, m, slot);
    CompletionDomains(inst, m, s);
    forall k | k in inst.discByStudent ensures forall d :: d in inst.discByStudent[k] ==> (k.0, d) in s.slot {
      forall d | d in inst.discByStudent[k] ensures (k.0, d) in Vars(inst.discByCourse) {
      }
    }
    CompletionDiffer(inst, m, s);
    CompletionLinks(inst, m, slot);
    CompletionCaps(inst, m, s);
    CompletionSame(inst, m, s);
    CompletionMakespan(inst, m, slot);
  }
}
