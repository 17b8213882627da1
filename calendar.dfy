/** The time grid: day-instances of the agenda times periods per day,
    linearised into one slot index space; the free slots of a course; the slot
    range of each day-instance; and the allowed-assignment table that ties a
    slot variable to its day indicator. */
module Calendar {
  import opened Entities

  /** T_SLOTS: the scheduling horizon. */
  function TotalSlots(nDays: nat, spd: nat): nat {
    nDays * spd
  }

  /** `lin`: slot index of period `p` of day-instance `d`. */
  function Lin(spd: nat, d: nat, p: nat): nat {
    d * spd + p
  }

  /** `unlin`: `divmod(k, SLOTS_DAY)`, the (day-instance, period) pair of slot `k`. */
  function Unlin(spd: nat, k: nat): (r: (nat, nat))
    requires spd > 0
    ensures r.1 < spd
    ensures Lin(spd, r.0, r.1) == k
  {
    (k / spd, k % spd)
  }

  lemma MulLeft(a: nat, b: nat, c: nat)
    requires a <= b
    ensures a * c <= b * c
  {
    assert b * c == a * c + (b - a) * c;
  }

  /** Slots of an earlier day-instance come before every slot of a later one. */
  lemma LinOrder(spd: nat, d1: nat, p1: nat, d2: nat, p2: nat)
    requires p1 < spd && d1 < d2
    ensures Lin(spd, d1, p1) < Lin(spd, d2, p2)
  {
    MulLeft(d1 + 1, d2, spd);
  }

  /** `unlin(lin(d, p)) == (d, p)` for every period of a day. */
  lemma UnlinLin(spd: nat, d: nat, p: nat)
    requires p < spd
    ensures Unlin(spd, Lin(spd, d, p)) == (d, p)
  {
    var (q, r) := Unlin(spd, Lin(spd, d, p));
    if q < d {
      LinOrder(spd, q, r, d, p);
    } else if d < q {
      LinOrder(spd, d, p, q, r);
    }
  }

  /** `lin` stays inside the horizon. */
  lemma LinBelowHorizon(spd: nat, nDays: nat, d: nat, p: nat)
    requires d < nDays && p < spd
    ensures Lin(spd, d, p) < TotalSlots(nDays, spd)
  {
    LinOrder(spd, d, p, nDays, 0);
  }

  /** Every slot of the horizon is a (day-instance, period) pair of the agenda. */
  lemma UnlinInsideAgenda(spd: nat, nDays: nat, k: nat)
    requires k < TotalSlots(nDays, spd)
    ensures spd > 0 && Unlin(spd, k).0 < nDays
  {
    var (q, r) := Unlin(spd, k);
    if nDays <= q {
      MulLeft(nDays, q, spd);
    }
  }

  // ---------------------------------------------------------------- free slots

  /** The agenda's labels all have a flag row in the course's week (otherwise
      `horarios[c][n]` raises). */
  predicate CoversAgenda(agenda: seq<DayLabel>, week: map<DayLabel, seq<int>>) {
    forall i :: 0 <= i < |agenda| ==> agenda[i] in week
  }

  /** Every flag row has exactly `spd` entries. */
  predicate Shaped(agenda: seq<DayLabel>, week: map<DayLabel, seq<int>>, spd: nat) {
    CoversAgenda(agenda, week) &&
    forall i :: 0 <= i < |agenda| ==> |week[agenda[i]]| == spd
  }

  /** The free slots among the first `m` periods of day-instance `d`, whose flag
      row is `row`, in period order. */
  function RowFree(spd: nat, d: nat, row: seq<int>, m: nat): seq<nat>
    requires m <= |row|
  {
    if m == 0 then []
    else RowFree(spd, d, row, m - 1) + (if row[m - 1] == 0 then [Lin(spd, d, m - 1)] else [])
  }

  /** The free slots of the first `n` day-instances of the agenda, day by day. */
  function FreeUpTo(spd: nat, agenda: seq<DayLabel>, week: map<DayLabel, seq<int>>, n: nat): seq<nat>
    requires n <= |agenda| && CoversAgenda(agenda, week)
  {
    if n == 0 then []
    else
      var row := week[agenda[n - 1]];
      FreeUpTo(spd, agenda, week, n - 1) + RowFree(spd, n - 1, row, |row|)
  }

  /** `free[c]`: the slots whose flag is 0, enumerated day-instance by
      day-instance and period by period. */
  function FreeSlots(spd: nat, agenda: seq<DayLabel>, week: map<DayLabel, seq<int>>): seq<nat>
    requires CoversAgenda(agenda, week)
  {
    FreeUpTo(spd, agenda, week, |agenda|)
  }

  /** The flag of slot `k` of the horizon. */
  function FlagAt(spd: nat, agenda: seq<DayLabel>, week: map<DayLabel, seq<int>>, k: nat): int
    requires Shaped(agenda, week, spd) && k < TotalSlots(|agenda|, spd)
  {
    UnlinInsideAgenda(spd, |agenda|, k);
    var (d, p) := Unlin(spd, k);
    week[agenda[d]][p]
  }

  predicate StrictlyIncreasing(s: seq<int>) {
    forall i, j :: 0 <= i < j < |s| ==> s[i] < s[j]
  }

  /** The free slots of the first `m` periods of a row are the slots
      `lin(d, p)` with `p < m` and flag 0, in increasing order. */
  lemma {:induction false} RowFreeFacts(spd: nat, d: nat, row: seq<int>, m: nat)
    requires m <= |row|
    ensures StrictlyIncreasing(RowFree(spd, d, row, m))
    ensures forall k :: k in RowFree(spd, d, row, m) <==>
              d * spd <= k < d * spd + m && row[k - d * spd] == 0
  {
    if m > 0 {
      RowFreeFacts(spd, d, row, m - 1);
      var prev := RowFree(spd, d, row, m - 1);
      forall i | 0 <= i < |prev| ensures prev[i] < Lin(spd, d, m - 1) {
        assert prev[i] in prev;
      }
    }
  }

  /** Slot `k` is a free slot of the first `n` day-instances iff it is
      `lin(d, p)` for a period `p` of a day-instance `d < n` whose flag is 0,
      whatever the lengths of the flag rows. */
  lemma {:induction false} FreeUpToPairs(spd: nat, agenda: seq<DayLabel>, week: map<DayLabel, seq<int>>, n: nat)
    requires n <= |agenda| && CoversAgenda(agenda, week)
    ensures forall k :: k in FreeUpTo(spd, agenda, week, n) <==>
              exists d: nat, p: nat :: d < n && p < |week[agenda[d]]| && k == Lin(spd, d, p) && week[agenda[d]][p] == 0
  {
    if n > 0 {
      var row := week[agenda[n - 1]];
      var prev := FreeUpTo(spd, agenda, week, n - 1);
      var here := RowFree(spd, n - 1, row, |row|);
      FreeUpToPairs(spd, agenda, week, n - 1);
      RowFreeFacts(spd, n - 1, row, |row|);
      forall k
        ensures k in prev + here <==>
                  exists d: nat, p: nat :: d < n && p < |week[agenda[d]]| && k == Lin(spd, d, p) && week[agenda[d]][p] == 0
      {
        if k in here {
          var p: nat := k - (n - 1) * spd;
          assert k == Lin(spd, n - 1, p) && week[agenda[n - 1]][p] == 0;
        }
        if k in prev {
          var d: nat, p: nat :| d < n - 1 && p < |week[agenda[d]]| && k == Lin(spd, d, p) && week[agenda[d]][p] == 0;
          assert d < n;
        }
        if exists d: nat, p: nat :: d < n && p < |week[agenda[d]]| && k == Lin(spd, d, p) && week[agenda[d]][p] == 0 {
          var d: nat, p: nat :| d < n && p < |week[agenda[d]]| && k == Lin(spd, d, p) && week[agenda[d]][p] == 0;
          if d == n - 1 {
            assert k in here;
          } else {
            assert k in prev;
          }
        }
      }
    }
  }

  /** With rows of `SLOTS_DAY` flags, the free slots of the first `n`
      day-instances are the slots of their horizon whose flag is 0, in
      increasing order. */
  lemma {:induction false} FreeUpToFacts(spd: nat, agenda: seq<DayLabel>, week: map<DayLabel, seq<int>>, n: nat)
    requires n <= |agenda| && Shaped(agenda, week, spd)
    ensures StrictlyIncreasing(FreeUpTo(spd, agenda, week, n))
    ensures forall k :: k in FreeUpTo(spd, agenda, week, n) <==>
              0 <= k < TotalSlots(n, spd) && FlagAt(spd, agenda, week, k) == 0
  {
    if n > 0 {
      var row := week[agenda[n - 1]];
      var prev := FreeUpTo(spd, agenda, week, n - 1);
      var here := RowFree(spd, n - 1, row, |row|);
      FreeUpToFacts(spd, agenda, week, n - 1);
      RowFreeFacts(spd, n - 1, row, |row|);
      assert TotalSlots(n, spd) == TotalSlots(n - 1, spd) + spd;
      MulLeft(n, |agenda|, spd);
      forall k | TotalSlots(n - 1, spd) <= k < TotalSlots(n, spd)
        ensures FlagAt(spd, agenda, week, k) == row[k - (n - 1) * spd]
      {
        UnlinLin(spd, n - 1, k - (n - 1) * spd);
      }
      forall i, j | 0 <= i < j < |prev + here|
        ensures (prev + here)[i] < (prev + here)[j]
      {
        if i < |prev| && |prev| <= j {
          assert prev[i] in prev && here[j - |prev|] in here;
        }
      }
    }
  }

  /** `free[c]` holds `lin(d, p)` exactly for the periods `p` of day-instances
      `d` whose flag is 0. When every row has `SLOTS_DAY` flags, the list is
      moreover strictly increasing (so it has no duplicates and
      `sorted(free[c])` leaves it as it is) and its entries are the slots of
      the horizon whose flag is 0. */
  lemma FreeSlotsCharacterised(spd: nat, agenda: seq<DayLabel>, week: map<DayLabel, seq<int>>)
    requires CoversAgenda(agenda, week)
    ensures forall k :: k in FreeSlots(spd, agenda, week) <==>
              exists d: nat, p: nat :: d < |agenda| && p < |week[agenda[d]]| && k == Lin(spd, d, p) && week[agenda[d]][p] == 0
    ensures Shaped(agenda, week, spd) ==> StrictlyIncreasing(FreeSlots(spd, agenda, week))
    ensures Shaped(agenda, week, spd) ==>
              forall k :: k in FreeSlots(spd, agenda, week) <==>
                0 <= k < TotalSlots(|agenda|, spd) && FlagAt(spd, agenda, week, k) == 0
  {
    FreeUpToPairs(spd, agenda, week, |agenda|);
    if Shaped(agenda, week, spd) {
      FreeUpToFacts(spd, agenda, week, |agenda|);
    }
  }

  // ---------------------------------------------------------------- day ranges

  /** `range(lo, hi)`: the integers from `lo` up to `hi - 1`, each once, in order. */
  function Range(lo: int, hi: int): (r: seq<int>)
    ensures |r| == if lo <= hi then hi - lo else 0
    ensures forall k :: k in r <==> lo <= k < hi
    ensures StrictlyIncreasing(r)
    decreases hi - lo
  {
    if lo < hi then
      var rest := Range(lo + 1, hi);
      assert forall j :: 0 <= j < |rest| ==> rest[j] in rest;
      [lo] + rest
    else []
  }

  /** `day_rng[di]`: the slots of day-instance `di`. */
  function DayRange(spd: nat, di: nat): seq<int> {
    Range(di * spd, (di + 1) * spd)
  }

  /** Slot `k` lies in day-instance `di`'s range exactly when `k / SLOTS_DAY == di`. */
  lemma InDayRange(spd: nat, di: nat, k: int)
    requires spd > 0
    ensures k in DayRange(spd, di) <==> 0 <= k && k / spd == di
  {
    if k in DayRange(spd, di) {
      UnlinLin(spd, di, k - di * spd);
    }
    if 0 <= k && k / spd == di {
      var (q, r) := Unlin(spd, k);
      assert k == di * spd + r;
    }
  }

  /** A day-instance of the agenda holds exactly the horizon slots `k` with
      `k / SLOTS_DAY` equal to it. */
  lemma DayRangeInHorizon(spd: nat, nDays: nat)
    ensures forall di, k :: 0 <= di < nDays ==>
              (k in DayRange(spd, di) <==> 0 <= k < TotalSlots(nDays, spd) && k / spd == di)
  {
    forall di, k | 0 <= di < nDays
      ensures k in DayRange(spd, di) <==> 0 <= k < TotalSlots(nDays, spd) && k / spd == di
    {
      if spd > 0 {
        InDayRange(spd, di, k);
        MulLeft(di + 1, nDays, spd);
      }
    }
  }

  /** `day_rng`: one slot range per day-instance of the agenda. The ranges
      partition the horizon `0..T_SLOTS-1`: each slot `k` lies in the range of
      day-instance `k / SLOTS_DAY` and in no other, and no range holds a slot
      outside the horizon. */
  function DayRanges(spd: nat, nDays: nat): (r: seq<seq<int>>)
    ensures |r| == nDays
    ensures forall di, k :: 0 <= di < nDays ==>
              (k in r[di] <==> 0 <= k < TotalSlots(nDays, spd) && k / spd == di)
  {
    DayRangeInHorizon(spd, nDays);
    seq(nDays, di requires 0 <= di => DayRange(spd, di))
  }

  // ---------------------------------------------------------------- day indicator table

  /** `[(k, 0) for k in range(m) if k not in rng]`. */
  function Outside(rng: seq<int>, m: nat): seq<(int, int)> {
    if m == 0 then []
    else Outside(rng, m - 1) + (if m - 1 !in rng then [(m - 1, 0)] else [])
  }

  /** The allowed assignments of `(v, b)` for day-instance `di`: `(k, 1)` for
      the slots of its range, then `(k, 0)` for every other slot of the horizon. */
  function DayTable(spd: nat, nDays: nat, di: nat): seq<(int, int)> {
    var rng := DayRange(spd, di);
    seq(|rng|, i requires 0 <= i < |rng| => (rng[i], 1)) + Outside(rng, TotalSlots(nDays, spd))
  }

  /** `b` of the day indicator: 1 when slot `k` falls on day-instance `di`. */
  function InDay(spd: nat, di: nat, k: int): int {
    if k in DayRange(spd, di) then 1 else 0
  }

  lemma {:induction false} OutsideFacts(rng: seq<int>, m: nat)
    ensures forall i :: 0 <= i < |Outside(rng, m)| ==>
              0 <= Outside(rng, m)[i].0 < m && Outside(rng, m)[i].0 !in rng
    ensures forall i, j :: 0 <= i < j < |Outside(rng, m)| ==> Outside(rng, m)[i].0 < Outside(rng, m)[j].0
    ensures forall k, b :: (k, b) in Outside(rng, m) <==> 0 <= k < m && k !in rng && b == 0
  {
    if m > 0 {
      OutsideFacts(rng, m - 1);
    }
  }

  /** The table is an exact reification of day membership: `(k, b)` is allowed
      iff `k` is a slot of the horizon and `b` is its day indicator. */
  lemma DayTableReifies(spd: nat, nDays: nat, di: nat, k: int, b: int)
    requires di < nDays
    ensures (k, b) in DayTable(spd, nDays, di) <==>
              0 <= k < TotalSlots(nDays, spd) && b == InDay(spd, di, k)
  {
    var rng := DayRange(spd, di);
    var ones := seq(|rng|, i requires 0 <= i < |rng| => (rng[i], 1));
    OutsideFacts(rng, TotalSlots(nDays, spd));
    DayRangeInHorizon(spd, nDays);
    if (k, b) in ones {
      var i :| 0 <= i < |ones| && ones[i] == (k, b);
      assert k in rng;
    }
    if 0 <= k < TotalSlots(nDays, spd) && b == InDay(spd, di, k) && k in rng {
      var i :| 0 <= i < |rng| && rng[i] == k;
      assert ones[i] == (k, b);
    }
  }

  /** The table lists every slot of the horizon exactly once. */
  lemma DayTableListsEachSlotOnce(spd: nat, nDays: nat, di: nat)
    requires di < nDays
    ensures forall i, j :: 0 <= i < j < |DayTable(spd, nDays, di)| ==>
              DayTable(spd, nDays, di)[i].0 != DayTable(spd, nDays, di)[j].0
    ensures forall k :: 0 <= k < TotalSlots(nDays, spd) ==>
              (k, InDay(spd, di, k)) in DayTable(spd, nDays, di)
  {
    var rng := DayRange(spd, di);
    var ones: seq<(int, int)> := seq(|rng|, i requires 0 <= i < |rng| => (rng[i], 1));
    var zeros := Outside(rng, TotalSlots(nDays, spd));
    var table := ones + zeros;
    OutsideFacts(rng, TotalSlots(nDays, spd));
    forall i, j | 0 <= i < j < |table|
      ensures table[i].0 != table[j].0
    {
      if j < |ones| {
        assert table[i].0 == rng[i] && table[j].0 == rng[j];
      } else if i < |ones| {
        var z := zeros[j - |ones|];
        assert table[i].0 == rng[i] && rng[i] in rng;
        assert table[j] == z;
      } else {
        assert table[i] == zeros[i - |ones|] && table[j] == zeros[j - |ones|];
      }
    }
    forall k | 0 <= k < TotalSlots(nDays, spd)
      ensures (k, InDay(spd, di, k)) in DayTable(spd, nDays, di)
    {
      DayTableReifies(spd, nDays, di, k, InDay(spd, di, k));
    }
  }
}
