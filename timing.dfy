/** Date arithmetic and the two timing checks.

    A timestamp is a whole number of seconds. The day offset between two timestamps is what
    Python's `timedelta.days` gives: the difference in days rounded DOWN, so one second
    before a timestamp is day -1 from it. `min` and `max` over the dated procedures keep the
    first entry among equals, as Python's do. */
module Timing {
  import opened Wrappers
  import opened Records

  const SecondsPerDay := 86400

  // ---------------------------------------------------------------------------
  // Day offsets

  /** `(later - earlier).days` */
  function DayOffset(earlier: int, later: int): (d: int)
    ensures d * SecondsPerDay <= later - earlier < (d + 1) * SecondsPerDay
  {
    (later - earlier) / SecondsPerDay
  }

  /** Whole days rounded toward zero, as C-style integer division would count them. */
  function TruncatedDays(earlier: int, later: int): int {
    var diff := later - earlier;
    if diff >= 0 then diff / SecondsPerDay else -((-diff) / SecondsPerDay)
  }

  /** A later stamp is never fewer days away. */
  lemma {:induction false} DayOffsetMonotone(earlier: int, a: int, b: int)
    requires a <= b
    ensures DayOffset(earlier, a) <= DayOffset(earlier, b)
  {
  }

  /** "At least n days" is a plain bound on the seconds between the two stamps. */
  lemma AtLeastDays(earlier: int, later: int, n: int)
    ensures DayOffset(earlier, later) >= n <==> later - earlier >= n * SecondsPerDay
  {
    var d := DayOffset(earlier, later);
    if d >= n {
      assert d * SecondsPerDay >= n * SecondsPerDay;
    } else {
      assert (d + 1) * SecondsPerDay <= n * SecondsPerDay;
    }
  }

  /** Rounding down and rounding toward zero disagree exactly on the negative differences
      that are not whole days (one second before is day -1, not day 0) ... */
  lemma FloorDiffersFromTruncation()
    ensures DayOffset(1, 0) == -1 && TruncatedDays(1, 0) == 0
  {
  }

  /** ... and agree on every test the engine makes: at least 10 days, and 1 to 30 days. */
  lemma FloorAgreesAtThresholds(earlier: int, later: int)
    ensures DayOffset(earlier, later) >= 10 <==> TruncatedDays(earlier, later) >= 10
    ensures 1 <= DayOffset(earlier, later) <= 30 <==> 1 <= TruncatedDays(earlier, later) <= 30
  {
    var diff := later - earlier;
    if diff < 0 {
      assert TruncatedDays(earlier, later) <= 0;
      assert DayOffset(earlier, later) < 0;
    } else {
      assert TruncatedDays(earlier, later) == DayOffset(earlier, later);
    }
  }

  // ---------------------------------------------------------------------------
  // Earliest and latest dated procedures

  /** A procedure with a code in `codes` whose date parsed. */
  predicate DatedIn(p: Procedure, codes: set<string>) {
    p.code in codes && p.stamp.Some?
  }

  /** Some procedure with a code in `codes` is dated. */
  predicate HasDated(ps: seq<Procedure>, codes: set<string>) {
    exists p :: p in ps && DatedIn(p, codes)
  }

  /** Every dated procedure in `a` is no later than every dated procedure in `b`. */
  predicate NoneLater(ps: seq<Procedure>, a: set<string>, b: set<string>) {
    forall p, q :: p in ps && q in ps && DatedIn(p, a) && DatedIn(q, b) ==> p.stamp.value <= q.stamp.value
  }

  /** `min(dated, key=stamp)`: the earliest dated procedure with a code in `codes`; None when
      there is none. */
  function EarliestDated(ps: seq<Procedure>, codes: set<string>): (r: Option<Procedure>)
    ensures r.None? <==> !HasDated(ps, codes)
    ensures r.Some? ==> r.value in ps && DatedIn(r.value, codes)
    ensures r.Some? ==> forall p :: p in ps && DatedIn(p, codes) ==> r.value.stamp.value <= p.stamp.value
  {
    if ps == [] then None
    else
      var rest := EarliestDated(ps[1..], codes);
      assert forall p :: p in ps ==> p == ps[0] || p in ps[1..];
      if DatedIn(ps[0], codes) && (rest.None? || ps[0].stamp.value <= rest.value.stamp.value) then
        Some(ps[0])
      else
        rest
  }

  /** Among procedures dated at the earliest stamp, `min` keeps the first in list order: every
      dated procedure before the one it picks is strictly later. */
  lemma {:induction false} EarliestIsFirst(ps: seq<Procedure>, codes: set<string>)
    requires HasDated(ps, codes)
    ensures exists i :: (0 <= i < |ps| && ps[i] == EarliestDated(ps, codes).value
                         && forall j :: 0 <= j < i && DatedIn(ps[j], codes) ==>
                              ps[j].stamp.value > EarliestDated(ps, codes).value.stamp.value)
  {
    var r := EarliestDated(ps, codes).value;
    if r == ps[0] && DatedIn(ps[0], codes) && EarliestDated(ps, codes) == Some(ps[0]) {
      assert 0 <= 0 < |ps| && ps[0] == r;
    } else {
      var tail := ps[1..];
      assert EarliestDated(ps, codes) == EarliestDated(tail, codes);
      assert HasDated(tail, codes);
      EarliestIsFirst(tail, codes);
      var i :| 0 <= i < |tail| && tail[i] == r
               && forall j :: 0 <= j < i && DatedIn(tail[j], codes) ==> tail[j].stamp.value > r.stamp.value;
      assert ps[i + 1] == r;
      forall j | 0 <= j < i + 1 && DatedIn(ps[j], codes)
        ensures ps[j].stamp.value > r.stamp.value
      {
        if j > 0 {
          assert ps[j] == tail[j - 1];
        }
      }
    }
  }

  /** `max(dated, key=stamp)`: the latest dated procedure with a code in `codes`. */
  function LatestDated(ps: seq<Procedure>, codes: set<string>): (r: Option<Procedure>)
    ensures r.None? <==> !HasDated(ps, codes)
    ensures r.Some? ==> r.value in ps && DatedIn(r.value, codes)
    ensures r.Some? ==> forall p :: p in ps && DatedIn(p, codes) ==> p.stamp.value <= r.value.stamp.value
  {
    if ps == [] then None
    else
      var rest := LatestDated(ps[1..], codes);
      assert forall p :: p in ps ==> p == ps[0] || p in ps[1..];
      if DatedIn(ps[0], codes) && (rest.None? || ps[0].stamp.value >= rest.value.stamp.value) then
        Some(ps[0])
      else
        rest
  }

  /** Comparing the latest of `a` with the earliest of `b` is comparing every pair. */
  lemma LatestBeforeEarliest(ps: seq<Procedure>, a: set<string>, b: set<string>)
    requires HasDated(ps, a)
    ensures EarliestDated(ps, b).Some? ==>
              (LatestDated(ps, a).value.stamp.value <= EarliestDated(ps, b).value.stamp.value
               <==> NoneLater(ps, a, b))
  {
  }

  /** The earliest of `a` is no later than the earliest of `b` exactly when some dated `a`
      procedure is no later than every dated `b` procedure. */
  lemma EarliestBeforeEarliest(ps: seq<Procedure>, a: set<string>, b: set<string>)
    requires HasDated(ps, a) && HasDated(ps, b)
    ensures EarliestDated(ps, a).value.stamp.value <= EarliestDated(ps, b).value.stamp.value
            <==> exists p :: p in ps && DatedIn(p, a)
                   && forall q :: q in ps && DatedIn(q, b) ==> p.stamp.value <= q.stamp.value
  {
  }

  /** `n` is the day offset from `start` of some dated procedure with a code in `codes`, and no
      such procedure is fewer days out. */
  ghost predicate EarliestOffset(ps: seq<Procedure>, codes: set<string>, start: int, n: int) {
    && (exists p :: p in ps && DatedIn(p, codes) && DayOffset(start, p.stamp.value) == n)
    && (forall p :: p in ps && DatedIn(p, codes) ==> n <= DayOffset(start, p.stamp.value))
  }

  /** The earliest dated procedure is also the fewest days out. */
  lemma EarliestHasEarliestOffset(ps: seq<Procedure>, codes: set<string>, start: int)
    requires HasDated(ps, codes)
    ensures EarliestOffset(ps, codes, start, DayOffset(start, EarliestDated(ps, codes).value.stamp.value))
  {
    var first := EarliestDated(ps, codes).value;
    forall p | p in ps && DatedIn(p, codes)
      ensures DayOffset(start, first.stamp.value) <= DayOffset(start, p.stamp.value)
    {
      DayOffsetMonotone(start, first.stamp.value, p.stamp.value);
    }
  }

  /** The earliest dated procedure is at least `n` days after `start` exactly when every dated
      procedure is. */
  lemma EarliestAtLeastDays(ps: seq<Procedure>, codes: set<string>, start: int, n: int)
    requires HasDated(ps, codes)
    ensures DayOffset(start, EarliestDated(ps, codes).value.stamp.value) >= n <==>
              forall p :: p in ps && DatedIn(p, codes) ==> DayOffset(start, p.stamp.value) >= n
  {
    var first := EarliestDated(ps, codes).value;
    forall p | p in ps && DatedIn(p, codes)
      ensures DayOffset(start, first.stamp.value) <= DayOffset(start, p.stamp.value)
    {
      DayOffsetMonotone(start, first.stamp.value, p.stamp.value);
    }
  }

  // ---------------------------------------------------------------------------
  // Treatment before surgery (PSI_09)

  /** Some dated treatment procedure is no later than every dated OR procedure, and there is
      a dated OR procedure. */
  predicate TreatmentNoLaterThanSurgery(ps: seq<Procedure>, orCodes: set<string>, treatmentCodes: set<string>) {
    && HasDated(ps, orCodes)
    && exists p :: p in ps && DatedIn(p, treatmentCodes)
         && forall q :: q in ps && DatedIn(q, orCodes) ==> p.stamp.value <= q.stamp.value
  }

  /** The outcome of `check_timing_exclusions`: True only for TreatmentFirst. */
  datatype TreatmentTiming =
    | MissingProcedures          // no OR procedure or no treatment procedure at all
    | TreatmentFirst(code: string) // the earliest dated treatment is no later than the earliest dated OR
    | TimingPassed

  /** `check_timing_exclusions(proc_list, or_codes, treatment_codes)`. */
  function CheckTimingExclusions(ps: seq<Procedure>, orCodes: set<string>, treatmentCodes: set<string>)
    : (t: TreatmentTiming)
    ensures t.MissingProcedures? <==> !HasProcedure(ps, orCodes) || !HasProcedure(ps, treatmentCodes)
    ensures t.TreatmentFirst? <==> TreatmentNoLaterThanSurgery(ps, orCodes, treatmentCodes)
    ensures t.TreatmentFirst? ==> t.code == EarliestDated(ps, treatmentCodes).value.code
  {
    if !HasProcedure(ps, orCodes) || !HasProcedure(ps, treatmentCodes) then MissingProcedures
    else
      var firstOr := EarliestDated(ps, orCodes);
      var firstTreatment := EarliestDated(ps, treatmentCodes);
      if firstOr.Some? && firstTreatment.Some? && firstTreatment.value.stamp.value <= firstOr.value.stamp.value then
        TreatmentFirst(firstTreatment.value.code)
      else
        TimingPassed
  }

  // ---------------------------------------------------------------------------
  // Reclosure before the abdominal operation (PSI_14)

  /** The outcome of `check_psi14_timing_exclusions`: an exclusion for the two "before" cases. */
  datatype ReclosureTiming =
    | NoDatedReclosure
    | ReclosureBeforeOpen   // latest reclosure no later than the earliest open abdominal procedure
    | ReclosureBeforeOther  // latest reclosure no later than the earliest other abdominal procedure
    | ReclosureAfter

  predicate ExcludesByTiming(t: ReclosureTiming) {
    t.ReclosureBeforeOpen? || t.ReclosureBeforeOther?
  }

  /** Some reclosure is dated, and every dated reclosure is no later than every dated open
      procedure, or than every dated other procedure (with one of those dated). */
  predicate ReclosureNoLaterThanSurgery(ps: seq<Procedure>, openCodes: set<string>, otherCodes: set<string>,
                                        reclosureCodes: set<string>) {
    && HasDated(ps, reclosureCodes)
    && ((HasDated(ps, openCodes) && NoneLater(ps, reclosureCodes, openCodes))
        || (HasDated(ps, otherCodes) && NoneLater(ps, reclosureCodes, otherCodes)))
  }

  /** `check_psi14_timing_exclusions` with the open, other and reclosure code sets. */
  function CheckReclosureTiming(ps: seq<Procedure>, openCodes: set<string>, otherCodes: set<string>,
                                reclosureCodes: set<string>): (t: ReclosureTiming)
    ensures t.NoDatedReclosure? <==> !HasDated(ps, reclosureCodes)
    ensures t.ReclosureBeforeOpen? <==>
              HasDated(ps, reclosureCodes) && HasDated(ps, openCodes) && NoneLater(ps, reclosureCodes, openCodes)
    ensures t.ReclosureBeforeOther? <==>
              HasDated(ps, reclosureCodes)
              && !(HasDated(ps, openCodes) && NoneLater(ps, reclosureCodes, openCodes))
              && HasDated(ps, otherCodes) && NoneLater(ps, reclosureCodes, otherCodes)
    ensures ExcludesByTiming(t) <==> ReclosureNoLaterThanSurgery(ps, openCodes, otherCodes, reclosureCodes)
  {
    var lastReclosure := LatestDated(ps, reclosureCodes);
    var firstOpen := EarliestDated(ps, openCodes);
    var firstOther := EarliestDated(ps, otherCodes);
    if lastReclosure.None? then NoDatedReclosure
    else
      LatestBeforeEarliest(ps, reclosureCodes, openCodes);
      LatestBeforeEarliest(ps, reclosureCodes, otherCodes);
      if firstOpen.Some? && lastReclosure.value.stamp.value <= firstOpen.value.stamp.value then
        ReclosureBeforeOpen
      else if firstOther.Some? && lastReclosure.value.stamp.value <= firstOther.value.stamp.value then
        ReclosureBeforeOther
      else
        ReclosureAfter
  }
}
