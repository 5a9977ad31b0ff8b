/** The PSI_15 organ analysis.

    Six organ systems, each with an injury code set and a repair procedure code set. The
    analysis anchors on the earliest dated abdominopelvic (ABDOMI15P) procedure, the index
    procedure, and for every organ collects its injuries, split by present-on-admission
    status, and its repair procedures dated 1 to 30 days after the index procedure. */
module Organs {
  import opened Wrappers
  import opened Codes
  import opened Records
  import opened Timing

  // ---------------------------------------------------------------------------
  // The organ systems

  /** `OrganSystem`, in declaration order. */
  datatype Organ = Spleen | Adrenal | Vessel | Diaphragm | Gastrointestinal | Genitourinary

  const AllOrgans: seq<Organ> := [Spleen, Adrenal, Vessel, Diaphragm, Gastrointestinal, Genitourinary]

  /** The position of an organ in the enumeration. */
  function OrganIndex(o: Organ): nat {
    match o
    case Spleen => 0
    case Adrenal => 1
    case Vessel => 2
    case Diaphragm => 3
    case Gastrointestinal => 4
    case Genitourinary => 5
  }

  /** The enumeration value reported for an organ. */
  function OrganName(o: Organ): string {
    match o
    case Spleen => "spleen"
    case Adrenal => "adrenal"
    case Vessel => "vessel"
    case Diaphragm => "diaphragm"
    case Gastrointestinal => "gi"
    case Genitourinary => "gu"
  }

  /** The code set holding an organ's injury diagnoses. */
  function InjuryCodeSet(o: Organ): CodeList {
    match o
    case Spleen => SPLEEN15D
    case Adrenal => ADRENAL15D
    case Vessel => VESSEL15D
    case Diaphragm => DIAPHR15D
    case Gastrointestinal => GI15D
    case Genitourinary => GU15D
  }

  /** The code set holding an organ's repair procedures. */
  function RepairCodeSet(o: Organ): CodeList {
    match o
    case Spleen => SPLEEN15P
    case Adrenal => ADRENAL15P
    case Vessel => VESSEL15P
    case Diaphragm => DIAPHR15P
    case Gastrointestinal => GI15P
    case Genitourinary => GU15P
  }

  /** Every organ is in the enumeration, at its index. */
  lemma OrganListed(o: Organ)
    ensures 0 <= OrganIndex(o) < |AllOrgans| && AllOrgans[OrganIndex(o)] == o
    ensures o in AllOrgans
  {
  }

  /** The enumeration lists the six organs once each, in index order, and the reported
      names tell the organs apart. */
  lemma OrgansEnumerated()
    ensures |AllOrgans| == 6
    ensures forall k :: 0 <= k < |AllOrgans| ==> OrganIndex(AllOrgans[k]) == k
    ensures forall o1, o2 :: OrganName(o1) == OrganName(o2) ==> o1 == o2
  {
    forall o1, o2 | OrganName(o1) == OrganName(o2)
      ensures o1 == o2
    {
    }
  }

  // ---------------------------------------------------------------------------
  // The repair window

  const WindowFirstDay := 1
  const WindowLastDay := 30

  /** A repair counts when it falls 1 to 30 days (rounded down) after the index procedure. */
  predicate InWindow(index: int, stamp: int) {
    WindowFirstDay <= DayOffset(index, stamp) <= WindowLastDay
  }

  /** In seconds, the window is the half-open interval from one day to 31 days after the
      index: a repair on the index day (offset 0) or on day 31 never counts. */
  lemma WindowInSeconds(index: int, stamp: int)
    ensures InWindow(index, stamp) <==>
              index + SecondsPerDay <= stamp < index + 31 * SecondsPerDay
  {
    AtLeastDays(index, stamp, 1);
    AtLeastDays(index, stamp, 31);
  }

  /** A repair in the window, with its day offset. */
  datatype Repair = Repair(code: string, stamp: int, slot: nat, days: int)

  /** The procedure as the window reports it. */
  function RepairOf(p: Procedure, index: int): Repair
    requires p.stamp.Some?
  {
    Repair(p.code, p.stamp.value, p.slot, DayOffset(index, p.stamp.value))
  }

  /** A dated procedure with a code in `codes` inside the window. */
  predicate Counts(p: Procedure, codes: set<string>, index: int) {
    DatedIn(p, codes) && InWindow(index, p.stamp.value)
  }

  /** `related_procs_in_window`: the procedures that count, in list order. */
  function RepairsInWindow(ps: seq<Procedure>, codes: set<string>, index: int): (r: seq<Repair>)
    ensures |r| <= |ps|
    ensures forall x :: x in r <==> exists p :: p in ps && Counts(p, codes, index) && x == RepairOf(p, index)
    ensures forall x :: x in r ==> WindowFirstDay <= x.days <= WindowLastDay
  {
    if ps == [] then []
    else
      var init := ps[..|ps| - 1];
      var last := ps[|ps| - 1];
      assert forall p :: p in ps <==> p in init || p == last;
      RepairsInWindow(init, codes, index)
        + (if Counts(last, codes, index) then [RepairOf(last, index)] else [])
  }

  /** The window over a concatenation is the concatenation of the windows: the repairs keep
      the order of `ps`. */
  lemma {:induction false} RepairsAppend(a: seq<Procedure>, b: seq<Procedure>, codes: set<string>, index: int)
    ensures RepairsInWindow(a + b, codes, index) == RepairsInWindow(a, codes, index) + RepairsInWindow(b, codes, index)
  {
    if b == [] {
      assert a + b == a;
    } else {
      var ab := a + b;
      var init := b[..|b| - 1];
      var last := b[|b| - 1];
      assert ab[..|ab| - 1] == a + init;
      assert ab[|ab| - 1] == last;
      var t := if Counts(last, codes, index) then [RepairOf(last, index)] else [];
      var x, y := RepairsInWindow(a, codes, index), RepairsInWindow(init, codes, index);
      assert RepairsInWindow(ab, codes, index) == RepairsInWindow(a + init, codes, index) + t;
      assert RepairsInWindow(b, codes, index) == y + t;
      RepairsAppend(a, init, codes, index);
      ConcatAssoc(x, y, t);
    }
  }

  // ---------------------------------------------------------------------------
  // The per-organ result

  /** One organ's entry in the analysis. */
  datatype OrganResult = OrganResult(
    hasInjury: bool,
    hasNonPoaInjury: bool,
    hasPoaInjury: bool,
    hasRepairInWindow: bool,
    nonPoaInjuries: seq<Diagnosis>,
    poaInjuries: seq<Diagnosis>,
    repairs: seq<Repair>,
    meets: bool)

  /** The entry for organ `o` given the index timestamp. */
  function AnalyzeOrgan(dxs: seq<Diagnosis>, ps: seq<Procedure>, reg: Registry, o: Organ, index: int)
    : OrganResult
  {
    var injuryCodes := CodeSet(reg, InjuryCodeSet(o));
    var injuries := Select(dxs, injuryCodes, AnyDx);
    var nonPoa := Select(injuries, injuryCodes, SecondaryNonPoa);
    var poa := Select(injuries, injuryCodes, PrincipalOrPoa);
    var repairs := RepairsInWindow(ps, CodeSet(reg, RepairCodeSet(o)), index);
    OrganResult(|injuries| > 0, |nonPoa| > 0, |poa| > 0, |repairs| > 0, nonPoa, poa, repairs,
                |nonPoa| > 0 && |repairs| > 0)
  }

  /** Narrowing the injuries by a POA filter is filtering the diagnoses by it: a diagnosis is
      in a group exactly when it is an injury passing that group's filter. */
  lemma InjuryGroup(dxs: seq<Diagnosis>, codes: set<string>, f: DxFilter)
    ensures forall d :: d in Select(Select(dxs, codes, AnyDx), codes, f) <==>
              d in dxs && d.code in codes && Admits(f, d)
    ensures |Select(Select(dxs, codes, AnyDx), codes, f)| > 0 <==> HasDx(dxs, codes, f)
  {
    var injuries := Select(dxs, codes, AnyDx);
    if HasDx(dxs, codes, f) {
      var d :| d in dxs && d.code in codes && Admits(f, d);
      assert d in injuries;
    }
  }

  /** "Secondary and not POA" and "Principal or POA" split the diagnoses in two. */
  lemma PoaGroupsComplementary(d: Diagnosis)
    ensures Admits(SecondaryNonPoa, d) <==> !Admits(PrincipalOrPoa, d)
  {
  }

  /** Every injury of an organ is in exactly one of its two POA groups: Secondary and not
      POA, or Principal or POA. */
  lemma InjuryPartition(dxs: seq<Diagnosis>, ps: seq<Procedure>, reg: Registry, o: Organ, index: int)
    ensures var r := AnalyzeOrgan(dxs, ps, reg, o, index);
            forall d :: d in dxs && d.code in CodeSet(reg, InjuryCodeSet(o)) ==>
              (d in r.nonPoaInjuries <==> d !in r.poaInjuries)
    ensures var r := AnalyzeOrgan(dxs, ps, reg, o, index);
            forall d :: d in r.nonPoaInjuries || d in r.poaInjuries ==>
              d in dxs && d.code in CodeSet(reg, InjuryCodeSet(o))
  {
    var codes := CodeSet(reg, InjuryCodeSet(o));
    var r := AnalyzeOrgan(dxs, ps, reg, o, index);
    InjuryGroup(dxs, codes, SecondaryNonPoa);
    InjuryGroup(dxs, codes, PrincipalOrPoa);
    assert r.nonPoaInjuries == Select(Select(dxs, codes, AnyDx), codes, SecondaryNonPoa);
    assert r.poaInjuries == Select(Select(dxs, codes, AnyDx), codes, PrincipalOrPoa);
    forall d | d in dxs && d.code in codes
      ensures d in r.nonPoaInjuries <==> d !in r.poaInjuries
    {
      PoaGroupsComplementary(d);
    }
  }

  /** An organ meets the numerator exactly when it has a Secondary, non-POA injury and a
      repair procedure dated 1 to 30 days after the index procedure. */
  lemma OrganMeetsNumerator(dxs: seq<Diagnosis>, ps: seq<Procedure>, reg: Registry, o: Organ, index: int)
    ensures AnalyzeOrgan(dxs, ps, reg, o, index).meets <==>
              HasDx(dxs, CodeSet(reg, InjuryCodeSet(o)), SecondaryNonPoa)
              && exists p :: p in ps && Counts(p, CodeSet(reg, RepairCodeSet(o)), index)
  {
    InjuryGroup(dxs, CodeSet(reg, InjuryCodeSet(o)), SecondaryNonPoa);
    RepairFound(ps, CodeSet(reg, RepairCodeSet(o)), index);
  }

  /** An organ's entry flags a POA injury with a repair exactly when a Principal or POA
      injury and a repair in the window are both present. */
  lemma OrganPoaWithRepair(dxs: seq<Diagnosis>, ps: seq<Procedure>, reg: Registry, o: Organ, index: int)
    ensures var r := AnalyzeOrgan(dxs, ps, reg, o, index);
            r.hasPoaInjury && r.hasRepairInWindow <==>
              HasDx(dxs, CodeSet(reg, InjuryCodeSet(o)), PrincipalOrPoa)
              && exists p :: p in ps && Counts(p, CodeSet(reg, RepairCodeSet(o)), index)
  {
    InjuryGroup(dxs, CodeSet(reg, InjuryCodeSet(o)), PrincipalOrPoa);
    RepairFound(ps, CodeSet(reg, RepairCodeSet(o)), index);
  }

  /** Some repair is reported exactly when some procedure counts. */
  lemma RepairFound(ps: seq<Procedure>, codes: set<string>, index: int)
    ensures |RepairsInWindow(ps, codes, index)| > 0 <==> exists p :: p in ps && Counts(p, codes, index)
  {
    if exists p :: p in ps && Counts(p, codes, index) {
      var p :| p in ps && Counts(p, codes, index);
      assert RepairOf(p, index) in RepairsInWindow(ps, codes, index);
    }
  }

  // ---------------------------------------------------------------------------
  // The analysis

  /** The index timestamp: the stamp of the earliest dated ABDOMI15P procedure. */
  function IndexStamp(ps: seq<Procedure>, reg: Registry): (r: Option<int>)
    ensures r.None? <==> !HasDated(ps, CodeSet(reg, ABDOMI15P))
    ensures r.Some? ==> forall p :: p in ps && DatedIn(p, CodeSet(reg, ABDOMI15P)) ==> r.value <= p.stamp.value
  {
    var first := EarliestDated(ps, CodeSet(reg, ABDOMI15P));
    if first.Some? then Some(first.value.stamp.value) else None
  }

  /** The entries of the organs `os` recorded one after the other. */
  function EntriesFor(os: seq<Organ>, dxs: seq<Diagnosis>, ps: seq<Procedure>, reg: Registry, index: int)
    : map<Organ, OrganResult>
  {
    if os == [] then map[]
    else EntriesFor(os[..|os| - 1], dxs, ps, reg, index)[os[|os| - 1] := AnalyzeOrgan(dxs, ps, reg, os[|os| - 1], index)]
  }

  /** The entries are keyed by exactly the organs recorded, each with its own entry. */
  lemma {:induction false} EntriesForShape(os: seq<Organ>, dxs: seq<Diagnosis>, ps: seq<Procedure>, reg: Registry, index: int)
    ensures forall o :: o in EntriesFor(os, dxs, ps, reg, index) <==> o in os
    ensures forall o :: o in EntriesFor(os, dxs, ps, reg, index) ==>
              EntriesFor(os, dxs, ps, reg, index)[o] == AnalyzeOrgan(dxs, ps, reg, o, index)
  {
    if os != [] {
      var init := os[..|os| - 1];
      EntriesForShape(init, dxs, ps, reg, index);
      assert forall o :: o in os <==> o in init || o == os[|os| - 1];
    }
  }

  /** Recording one more organ extends the entries by that organ's entry. */
  lemma EntriesStep(os: seq<Organ>, k: nat, dxs: seq<Diagnosis>, ps: seq<Procedure>, reg: Registry, index: int)
    requires k < |os|
    ensures EntriesFor(os[..k + 1], dxs, ps, reg, index)
            == EntriesFor(os[..k], dxs, ps, reg, index)[os[k] := AnalyzeOrgan(dxs, ps, reg, os[k], index)]
  {
    assert os[..k + 1][..k] == os[..k];
  }

  /** `analyze_psi15_organ_injuries`: the entries of all organs, counted from the index
      timestamp; empty without a dated index procedure. */
  function OrganAnalysis(dxs: seq<Diagnosis>, ps: seq<Procedure>, reg: Registry): map<Organ, OrganResult> {
    match IndexStamp(ps, reg)
    case None => map[]
    case Some(index) => EntriesFor(AllOrgans, dxs, ps, reg, index)
  }

  /** The analysis is empty exactly without a dated index procedure; otherwise every organ has
      an entry, and it is that organ's entry for the index timestamp. */
  lemma OrganAnalysisShape(dxs: seq<Diagnosis>, ps: seq<Procedure>, reg: Registry)
    ensures OrganAnalysis(dxs, ps, reg) == map[] <==> !HasDated(ps, CodeSet(reg, ABDOMI15P))
    ensures HasDated(ps, CodeSet(reg, ABDOMI15P)) ==>
              forall o :: && o in OrganAnalysis(dxs, ps, reg)
                          && OrganAnalysis(dxs, ps, reg)[o] == AnalyzeOrgan(dxs, ps, reg, o, IndexStamp(ps, reg).value)
  {
    if HasDated(ps, CodeSet(reg, ABDOMI15P)) {
      var index := IndexStamp(ps, reg).value;
      var m := EntriesFor(AllOrgans, dxs, ps, reg, index);
      EntriesForShape(AllOrgans, dxs, ps, reg, index);
      assert Spleen in AllOrgans;
      assert Spleen in m;
      forall o ensures o in m { OrganListed(o); }
    }
  }

  /** The index procedure is the earliest dated ABDOMI15P procedure, so every dated
      ABDOMI15P procedure falls on day 0 or later from it. */
  lemma IndexIsEarliest(ps: seq<Procedure>, reg: Registry)
    requires HasDated(ps, CodeSet(reg, ABDOMI15P))
    ensures forall p :: p in ps && DatedIn(p, CodeSet(reg, ABDOMI15P)) ==>
              DayOffset(IndexStamp(ps, reg).value, p.stamp.value) >= 0
  {
    var index := IndexStamp(ps, reg).value;
    forall p | p in ps && DatedIn(p, CodeSet(reg, ABDOMI15P))
      ensures DayOffset(index, p.stamp.value) >= 0
    {
      DayOffsetMonotone(index, index, p.stamp.value);
    }
  }

  /** The inner loop of `analyze_psi15_organ_injuries`: scan the procedures in list order,
      keeping each dated repair whose day offset from the index is 1 to 30. */
  method CollectRepairs(ps: seq<Procedure>, repairCodes: set<string>, index: int)
    returns (repairs: seq<Repair>)
    ensures repairs == RepairsInWindow(ps, repairCodes, index)
  {
    repairs := [];
    for n := 0 to |ps|
      invariant repairs == RepairsInWindow(ps[..n], repairCodes, index)
    {
      var p := ps[n];
      assert ps[..n + 1][..n] == ps[..n] && ps[..n + 1][n] == p;
      if p.code in repairCodes && p.stamp.Some? {
        var days := DayOffset(index, p.stamp.value);
        if 1 <= days <= 30 {
          repairs := repairs + [Repair(p.code, p.stamp.value, p.slot, days)];
        }
      }
    }
    assert ps[..|ps|] == ps;
  }

  /** One pass of the organ loop of `analyze_psi15_organ_injuries`: collect the organ's
      injuries and its repairs in the window, split the injuries by POA, build its entry. */
  method AnalyzeOneOrgan(dxs: seq<Diagnosis>, ps: seq<Procedure>, reg: Registry, o: Organ, index: int)
    returns (entry: OrganResult)
    ensures entry == AnalyzeOrgan(dxs, ps, reg, o, index)
  {
    var injuryCodes := CodeSet(reg, InjuryCodeSet(o));
    var injuries := Select(dxs, injuryCodes, AnyDx);
    var repairs := CollectRepairs(ps, CodeSet(reg, RepairCodeSet(o)), index);
    var nonPoa := Select(injuries, injuryCodes, SecondaryNonPoa);
    var poa := Select(injuries, injuryCodes, PrincipalOrPoa);
    entry := OrganResult(|injuries| > 0, |nonPoa| > 0, |poa| > 0, |repairs| > 0,
                         nonPoa, poa, repairs, |nonPoa| > 0 && |repairs| > 0);
  }

  /** `analyze_psi15_organ_injuries`: find the index procedure, then fill in the organs'
      entries in enumeration order. */
  method AnalyzeOrganInjuries(dxs: seq<Diagnosis>, ps: seq<Procedure>, reg: Registry)
    returns (results: map<Organ, OrganResult>)
    ensures results == OrganAnalysis(dxs, ps, reg)
  {
    results := map[];
    var first := EarliestDated(ps, CodeSet(reg, ABDOMI15P));
    if first.None? {
      return;
    }
    var index := first.value.stamp.value;
    for k := 0 to |AllOrgans|
      invariant results == EntriesFor(AllOrgans[..k], dxs, ps, reg, index)
    {
      var o := AllOrgans[k];
      var entry := AnalyzeOneOrgan(dxs, ps, reg, o, index);
      EntriesStep(AllOrgans, k, dxs, ps, reg, index);
      results := results[o := entry];
    }
    assert AllOrgans[..|AllOrgans|] == AllOrgans;
  }

  // ---------------------------------------------------------------------------
  // Reading the analysis

  /** The two questions the indicator asks of an organ's entry. */
  datatype OrganTest = PoaInjuryWithRepair | MeetsNumerator

  predicate Passes(t: OrganTest, r: OrganResult) {
    match t
    case PoaInjuryWithRepair => r.hasPoaInjury && r.hasRepairInWindow
    case MeetsNumerator => r.meets
  }

  /** Strictly increasing enumeration positions. */
  predicate InEnumOrder(os: seq<Organ>) {
    forall i, j :: 0 <= i < j < |os| ==> OrganIndex(os[i]) < OrganIndex(os[j])
  }

  /** The organs of `os` whose entry passes `t`, in the order of `os`. */
  function OrgansPassing(os: seq<Organ>, m: map<Organ, OrganResult>, t: OrganTest): (r: seq<Organ>)
    requires forall o :: o in os ==> o in m
    ensures forall o :: o in r <==> o in os && Passes(t, m[o])
    ensures InEnumOrder(os) ==> InEnumOrder(r)
  {
    if os == [] then []
    else
      var rest := OrgansPassing(os[1..], m, t);
      assert forall o :: o in os <==> o == os[0] || o in os[1..];
      if Passes(t, m[os[0]]) then
        assert forall k :: 0 <= k < |rest| ==> rest[k] in os[1..];
        assert InEnumOrder(os) ==> forall o :: o in os[1..] ==> OrganIndex(os[0]) < OrganIndex(o);
        [os[0]] + rest
      else
        rest
  }

  /** The reported names of a list of organs. */
  function OrganNames(os: seq<Organ>): (names: seq<string>)
    ensures |names| == |os|
    ensures forall k :: 0 <= k < |os| ==> names[k] == OrganName(os[k])
  {
    seq(|os|, k requires 0 <= k < |os| => OrganName(os[k]))
  }
}
