/** What the script submits to the CP-SAT solver, as a value, and what it
    means for an assignment to satisfy it. The solver itself is not modelled:
    any assignment it reports as OPTIMAL or FEASIBLE satisfies every posted
    variable domain and constraint, and that is all the rest of the timetable
    relies on. */
module CpSat {
  import opened Entities

  /** The posted model, one field per family of constraints the script adds.
      Keys record which loop iteration posted a constraint. */
  datatype CpModel = CpModel(
    /** `NewIntVarFromDomain`: the domain of each exam variable. */
    slotDomain: map<SlotKey, set<int>>,
    /** `m.Add(x != y)`. */
    differ: set<(SlotKey, SlotKey)>,
    /** `NewBoolVar` + `AddAllowedAssignments([v, b], table)`: the table tying
        each day indicator to the exam variable it belongs to. */
    dayLink: map<DayKey, seq<(int, int)>>,
    /** `m.Add(sum(bvar[(c, d, di)] for d in ds) <= capBound)`, keyed by
        student and day-instance; the list holds the subjects `ds`. */
    dayCap: map<(StudentKey, nat), seq<Subject>>,
    capBound: int,
    /** `m.Add(x == y)`. */
    same: set<(SlotKey, SlotKey)>,
    /** `NewIntVar(0, latestHi, "latest")`. */
    latestHi: int,
    /** `AddMaxEquality(latest, [slot[k] for k in slot])`. */
    maxOver: seq<SlotKey>)

  /** Values the solver reports for every variable of the model. */
  datatype Solution = Solution(slot: map<SlotKey, int>, inDay: map<DayKey, int>, latest: int)

  /** Sum of the day indicators of course `c`, day-instance `di`, over `ds`. */
  function IndicatorSum(inDay: map<DayKey, int>, c: Course, di: nat, ds: seq<Subject>): int
    requires forall d :: d in ds ==> (c, d, di) in inDay
  {
    if ds == [] then 0
    else IndicatorSum(inDay, c, di, ds[..|ds| - 1]) + inDay[(c, ds[|ds| - 1], di)]
  }

  /** Largest value of the listed exam variables. */
  function MaxOf(slot: map<SlotKey, int>, ks: seq<SlotKey>): int
    requires |ks| > 0 && forall k :: k in ks ==> k in slot
  {
    if |ks| == 1 then slot[ks[0]]
    else
      var m := MaxOf(slot, ks[..|ks| - 1]);
      var v := slot[ks[|ks| - 1]];
      if v > m then v else m
  }

  predicate DomainsHold(m: CpModel, s: Solution) {
    && s.slot.Keys == m.slotDomain.Keys
    && forall k :: k in m.slotDomain ==> s.slot[k] in m.slotDomain[k]
  }

  predicate DifferHolds(m: CpModel, s: Solution) {
    forall p :: p in m.differ ==> p.0 in s.slot && p.1 in s.slot && s.slot[p.0] != s.slot[p.1]
  }

  predicate DayLinksHold(m: CpModel, s: Solution) {
    && s.inDay.Keys == m.dayLink.Keys
    && forall k :: k in m.dayLink ==>
         && (k.0, k.1) in s.slot
         && s.inDay[k] in {0, 1}
         && (s.slot[(k.0, k.1)], s.inDay[k]) in m.dayLink[k]
  }

  predicate DayCapsHold(m: CpModel, s: Solution) {
    forall key :: key in m.dayCap ==>
      && (forall d :: d in m.dayCap[key] ==> (key.0.0, d, key.1) in s.inDay)
      && IndicatorSum(s.inDay, key.0.0, key.1, m.dayCap[key]) <= m.capBound
  }

  predicate SameHolds(m: CpModel, s: Solution) {
    forall p :: p in m.same ==> p.0 in s.slot && p.1 in s.slot && s.slot[p.0] == s.slot[p.1]
  }

  /** `latest` lies in its domain and is the maximum of the listed variables.
      CP-SAT treats a maximum over an empty list as a constraint that cannot
      hold. */
  predicate MakespanHolds(m: CpModel, s: Solution) {
    && 0 <= s.latest <= m.latestHi
    && |m.maxOver| > 0
    && (forall k :: k in m.maxOver ==> k in s.slot)
    && s.latest == MaxOf(s.slot, m.maxOver)
  }

  /** The assignment meets every domain and every posted constraint. */
  predicate Satisfies(m: CpModel, s: Solution) {
    && DomainsHold(m, s)
    && DifferHolds(m, s)
    && DayLinksHold(m, s)
    && DayCapsHold(m, s)
    && SameHolds(m, s)
    && MakespanHolds(m, s)
  }

  /** The maximum is attained by one of the listed variables and bounds all of them. */
  lemma {:induction false} MaxOfIsMaximum(slot: map<SlotKey, int>, ks: seq<SlotKey>)
    requires |ks| > 0 && forall k :: k in ks ==> k in slot
    ensures exists i :: 0 <= i < |ks| && MaxOf(slot, ks) == slot[ks[i]]
    ensures forall k :: k in ks ==> slot[k] <= MaxOf(slot, ks)
  {
    if |ks| > 1 {
      var init := ks[..|ks| - 1];
      assert ks == init + [ks[|ks| - 1]];
      MaxOfIsMaximum(slot, init);
      var i :| 0 <= i < |init| && MaxOf(slot, init) == slot[init[i]];
      if slot[ks[|ks| - 1]] > MaxOf(slot, init) {
        assert MaxOf(slot, ks) == slot[ks[|ks| - 1]];
      } else {
        assert ks[i] == init[i];
      }
    } else {
      assert MaxOf(slot, ks) == slot[ks[0]];
    }
  }

  /** Over a duplicate-free list of 0/1 indicators, the sum counts the
      subjects whose indicator is 1. */
  lemma {:induction false} IndicatorSumCounts(inDay: map<DayKey, int>, c: Course, di: nat, ds: seq<Subject>)
    requires NoDup(ds)
    requires forall d :: d in ds ==> (c, d, di) in inDay && inDay[(c, d, di)] in {0, 1}
    ensures IndicatorSum(inDay, c, di, ds) == |set d | d in ds && inDay[(c, d, di)] == 1|
  {
    if ds != [] {
      var init := ds[..|ds| - 1];
      var last := ds[|ds| - 1];
      assert ds == init + [last];
      IndicatorSumCounts(inDay, c, di, init);
      var before := set d | d in init && inDay[(c, d, di)] == 1;
      var after := set d | d in ds && inDay[(c, d, di)] == 1;
      assert last !in init;
      if inDay[(c, last, di)] == 1 {
        assert after == before + {last};
      } else {
        assert after == before;
      }
    }
  }
}
