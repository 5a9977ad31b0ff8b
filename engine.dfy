/** The classification engine: `evaluate_psi_comprehensive`.

    For one encounter and one indicator name the engine answers Inclusion or Exclusion,
    with a rationale list and a detail map. A common preamble excludes minors, ungroupable
    DRG 999, obstetric (MDC 14) and neonatal (MDC 15) principal diagnoses; each indicator
    then applies its population test, its hard exclusions, and its numerator test, stopping
    at the first exclusion that applies. Rationale entries are tagged reasons carrying the
    values the message would print. */
module Engine {
  import opened Wrappers
  import opened Codes
  import opened Records
  import opened Timing
  import opened Organs

  // ---------------------------------------------------------------------------
  // Results

  datatype Status = Inclusion | Exclusion

  /** One rationale entry. */
  datatype Reason =
    // the common preamble
    | AgeUnder18(age: int)
    | UngroupableDrg
    | ObstetricCase
    | NeonatalCase
    // population tests
    | NotSurgicalDrg
    | NotSurgicalOrMedicalDrg
    | NotSurgicalOrObstetric
    | NotSurgicalMedicalOrObstetric
    | NotElective(atype: Option<int>)
    | NoOrProcedures
    | NoAbdominopelvicSurgery
    | NoAbdominopelvicProcedures
    | MissingAbdominopelvicDates
    // hard exclusions
    | PrincipalPneumothorax
    | ChestTrauma
    | StayUnderTwoDays(los: int)
    | CancerPresent
    | ProstheticFracture
    | CoagulationDisorder
    | TreatmentBeforeSurgery(code: string)
    | CardiacOrKidneyCondition(code: string)
    | NeurologicalCondition(code: string)
    | HeparinThrombocytopenia
    | PrincipalSepsis
    | SepsisPresentOnAdmission(code: string)
    | PrincipalInfection
    | InfectionPresentOnAdmission(code: string)
    | LateSurgery(days: int)
    | PrincipalWoundDisruption
    | WoundDisruptionPresentOnAdmission(code: string)
    | ReclosureTimingExclusion(timing: ReclosureTiming)
    | OrganInjuryPresentOnAdmission(organs: seq<Organ>)
    // numerator outcomes
    | RetainedItemFound(code: string, poa: Poa)
    | NoRetainedItem
    | IatrogenicPneumothoraxFound(code: string, poa: Poa)
    | NoIatrogenicPneumothorax
    | CentralLineInfectionFound(code: string, poa: Poa)
    | NoCentralLineInfection
    | HipFractureFound(code: string)
    | OtherFractureFound(code: string)
    | NoFracture
    | HemorrhageAndTreatment
    | HemorrhageWithoutTreatment
    | TreatmentWithoutHemorrhage
    | NeitherHemorrhageNorTreatment
    | KidneyFailureAndDialysis
    | MissingKidneyFailureOrDialysis
    | RespiratoryCriteriaMet(criteria: seq<string>)
    | NoRespiratoryCriteria
    | VenousThromboembolism(events: seq<string>)
    | NoVenousThromboembolism
    | PostoperativeSepsis(code: string, poa: Poa)
    | NoPostoperativeSepsis
    | ReclosureAndWoundDisruption
    | ReclosureWithoutWoundDisruption
    | WoundDisruptionWithoutReclosure
    | NeitherReclosureNorWoundDisruption
    | OrganInjuryWithRepair(organs: seq<Organ>)
    | NoOrganInjuryWithRepair

  /** The keys of the detail map; `FieldName` gives each key as the engine spells it. */
  datatype Field =
    | MatchedCodes | FractureType | DxMatches | ProcMatches | CriteriaMet | DvtMatches | PeMatches
    | SepsisMatches | HasReclosure | WoundMatches | Stratum | QualifyingOrgans | OrganBreakdown

  function FieldName(f: Field): string {
    match f
    case MatchedCodes => "matched_codes"
    case FractureType => "fracture_type"
    case DxMatches => "dx_matches"
    case ProcMatches => "proc_matches"
    case CriteriaMet => "criteria_met"
    case DvtMatches => "dvt_matches"
    case PeMatches => "pe_matches"
    case SepsisMatches => "sepsis_matches"
    case HasReclosure => "has_reclosure"
    case WoundMatches => "wound_matches"
    case Stratum => "stratum"
    case QualifyingOrgans => "qualifying_organs"
    case OrganBreakdown => "organ_analysis"
  }

  /** One value of the detail map. */
  datatype Detail =
    | Matches(pairs: seq<(string, Poa)>)
    | ProcCodes(codes: seq<string>)
    | Flag(flag: bool)
    | Label(text: string)
    | Labels(texts: seq<string>)
    | OrganEntries(entries: map<string, OrganResult>)

  /** `(psi_status, rationale, detailed_info)` */
  datatype Classification = Classification(status: Status, rationale: seq<Reason>, details: map<Field, Detail>)

  /** An early return: Exclusion, one reason, no details. */
  function Excluded(r: Reason): Classification {
    Classification(Exclusion, [r], map[])
  }

  /** What every path through a known indicator produces: exactly one rationale entry, and
      details exactly on Inclusion. */
  predicate WellFormed(c: Classification) {
    |c.rationale| == 1 && (c.status == Inclusion <==> |c.details| > 0)
  }

  /** `key` lists, as (code, POA) pairs, exactly the diagnoses with a code in `codes` passing `f`. */
  ghost predicate ReportsDiagnoses(c: Classification, key: Field, dxs: seq<Diagnosis>, codes: set<string>, f: DxFilter) {
    && key in c.details
    && c.details[key].Matches?
    && (forall d :: d in dxs && d.code in codes && Admits(f, d) ==> (d.code, d.poa) in c.details[key].pairs)
    && (forall x :: x in c.details[key].pairs ==>
          exists d :: d in dxs && d.code in codes && Admits(f, d) && x == (d.code, d.poa))
  }

  /** `key` lists exactly the codes in `codes` that some procedure carries. */
  ghost predicate ReportsProcedures(c: Classification, key: Field, ps: seq<Procedure>, codes: set<string>) {
    && key in c.details
    && c.details[key].ProcCodes?
    && (forall code :: code in c.details[key].codes <==> code in codes && exists p :: p in ps && p.code == code)
  }

  /** The selection reported as (code, POA) pairs lists exactly the selected diagnoses. */
  lemma PairsOfSelection(dxs: seq<Diagnosis>, codes: set<string>, f: DxFilter)
    ensures forall d :: d in dxs && d.code in codes && Admits(f, d) ==> (d.code, d.poa) in Pairs(Select(dxs, codes, f))
    ensures forall x :: x in Pairs(Select(dxs, codes, f)) ==>
              exists d :: d in dxs && d.code in codes && Admits(f, d) && x == (d.code, d.poa)
  {
  }

  // ---------------------------------------------------------------------------
  // Conditions the indicators share

  predicate Surgical(e: Encounter, reg: Registry) { e.msDrg in CodeSet(reg, SURGI2R) }
  predicate Medical(e: Encounter, reg: Registry) { e.msDrg in CodeSet(reg, MEDIC2R) }
  predicate Obstetric(e: Encounter, reg: Registry) { e.principalDx in CodeSet(reg, MDC14PRINDX) }
  predicate Neonatal(e: Encounter, reg: Registry) { e.principalDx in CodeSet(reg, MDC15PRINDX) }

  /** `atype == 3`; a missing ATYPE is not elective. */
  predicate Elective(e: Encounter) { e.atype == Some(3) }

  /** `pd.notna(length_of_stay) and length_of_stay < 2` */
  predicate ShortStay(e: Encounter) { e.lengthOfStay.Some? && e.lengthOfStay.value < 2 }

  predicate HasOrProcedure(e: Encounter, reg: Registry) { HasProcedure(e.procs, CodeSet(reg, ORPROC)) }

  /** The first diagnosis of a non-empty selection, as the messages report it. */
  function First(ds: seq<Diagnosis>): Diagnosis
    requires |ds| > 0
  {
    ds[0]
  }

  // ---------------------------------------------------------------------------
  // The common preamble

  /** The common exclusion that applies first, if any: age under 18, then DRG 999, then an
      MDC 14 principal diagnosis, then an MDC 15 one. A missing age or DRG passes. */
  function Preamble(e: Encounter, reg: Registry): (r: Option<Reason>)
    ensures e.age.Some? && e.age.value < 18 ==> r == Some(AgeUnder18(e.age.value))
    ensures r.None? <==>
              !(e.age.Some? && e.age.value < 18) && e.drg != Some(999) && !Obstetric(e, reg) && !Neonatal(e, reg)
    ensures r == Some(UngroupableDrg) <==> !(e.age.Some? && e.age.value < 18) && e.drg == Some(999)
    ensures r == Some(ObstetricCase) <==>
              !(e.age.Some? && e.age.value < 18) && e.drg != Some(999) && Obstetric(e, reg)
    ensures r == Some(NeonatalCase) <==>
              !(e.age.Some? && e.age.value < 18) && e.drg != Some(999) && !Obstetric(e, reg) && Neonatal(e, reg)
  {
    if e.age.Some? && e.age.value < 18 then Some(AgeUnder18(e.age.value))
    else if e.drg == Some(999) then Some(UngroupableDrg)
    else if Obstetric(e, reg) then Some(ObstetricCase)
    else if Neonatal(e, reg) then Some(NeonatalCase)
    else None
  }

  // ---------------------------------------------------------------------------
  // PSI_05 to PSI_08: one diagnosis numerator

  /** PSI_05, retained surgical item. */
  function Psi05(e: Encounter, reg: Registry): (c: Classification)
    ensures WellFormed(c)
    ensures c.status == Inclusion <==>
              (Surgical(e, reg) || Obstetric(e, reg)) && HasDx(e.dxs, CodeSet(reg, FOREIID), SecondaryNonPoa)
    ensures c.status == Inclusion ==>
              ReportsDiagnoses(c, MatchedCodes, e.dxs, CodeSet(reg, FOREIID), SecondaryNonPoa)
    ensures !Surgical(e, reg) && !Obstetric(e, reg) ==> c == Excluded(NotSurgicalOrObstetric)
    ensures (Surgical(e, reg) || Obstetric(e, reg)) && !HasDx(e.dxs, CodeSet(reg, FOREIID), SecondaryNonPoa) ==>
              c == Excluded(NoRetainedItem)
    ensures c.status == Inclusion ==>
              var s := Select(e.dxs, CodeSet(reg, FOREIID), SecondaryNonPoa);
              && |s| > 0
              && c == Classification(Inclusion, [RetainedItemFound(s[0].code, s[0].poa)],
                                     map[MatchedCodes := Matches(Pairs(s))])
  {
    if !Surgical(e, reg) && !Obstetric(e, reg) then Excluded(NotSurgicalOrObstetric)
    else
      var matches := Select(e.dxs, CodeSet(reg, FOREIID), SecondaryNonPoa);
      PairsOfSelection(e.dxs, CodeSet(reg, FOREIID), SecondaryNonPoa);
      if |matches| > 0 then
        Classification(Inclusion, [RetainedItemFound(First(matches).code, First(matches).poa)],
                       map[MatchedCodes := Matches(Pairs(matches))])
      else
        Excluded(NoRetainedItem)
  }

  /** PSI_06, iatrogenic pneumothorax. */
  function Psi06(e: Encounter, reg: Registry): (c: Classification)
    ensures WellFormed(c)
    ensures c.status == Inclusion <==>
              && (Surgical(e, reg) || Medical(e, reg))
              && e.principalDx !in CodeSet(reg, IATPTXD)
              && !HasDx(e.dxs, CodeSet(reg, CTRAUMD), AnyDx)
              && HasDx(e.dxs, CodeSet(reg, IATROID), SecondaryNonPoa)
    ensures c.status == Inclusion ==>
              ReportsDiagnoses(c, MatchedCodes, e.dxs, CodeSet(reg, IATROID), SecondaryNonPoa)
    ensures !Surgical(e, reg) && !Medical(e, reg) ==> c == Excluded(NotSurgicalOrMedicalDrg)
    ensures var population := Surgical(e, reg) || Medical(e, reg);
            && (population && e.principalDx in CodeSet(reg, IATPTXD) ==> c == Excluded(PrincipalPneumothorax))
            && (population && e.principalDx !in CodeSet(reg, IATPTXD) && HasDx(e.dxs, CodeSet(reg, CTRAUMD), AnyDx) ==>
                  c == Excluded(ChestTrauma))
            && ((population && e.principalDx !in CodeSet(reg, IATPTXD) && !HasDx(e.dxs, CodeSet(reg, CTRAUMD), AnyDx)
                 && !HasDx(e.dxs, CodeSet(reg, IATROID), SecondaryNonPoa)) ==> c == Excluded(NoIatrogenicPneumothorax))
    ensures c.status == Inclusion ==>
              var s := Select(e.dxs, CodeSet(reg, IATROID), SecondaryNonPoa);
              && |s| > 0
              && c == Classification(Inclusion, [IatrogenicPneumothoraxFound(s[0].code, s[0].poa)],
                                     map[MatchedCodes := Matches(Pairs(s))])
  {
    if !Surgical(e, reg) && !Medical(e, reg) then Excluded(NotSurgicalOrMedicalDrg)
    else if e.principalDx in CodeSet(reg, IATPTXD) then Excluded(PrincipalPneumothorax)
    else if HasDx(e.dxs, CodeSet(reg, CTRAUMD), AnyDx) then Excluded(ChestTrauma)
    else
      var matches := Select(e.dxs, CodeSet(reg, IATROID), SecondaryNonPoa);
      PairsOfSelection(e.dxs, CodeSet(reg, IATROID), SecondaryNonPoa);
      if |matches| > 0 then
        Classification(Inclusion, [IatrogenicPneumothoraxFound(First(matches).code, First(matches).poa)],
                       map[MatchedCodes := Matches(Pairs(matches))])
      else
        Excluded(NoIatrogenicPneumothorax)
  }

  /** PSI_07, central venous catheter-related bloodstream infection. */
  function Psi07(e: Encounter, reg: Registry): (c: Classification)
    ensures WellFormed(c)
    ensures c.status == Inclusion <==>
              && (Surgical(e, reg) || Medical(e, reg) || Obstetric(e, reg))
              && !ShortStay(e)
              && !HasDx(e.dxs, CodeSet(reg, CANCEID), AnyDx)
              && HasDx(e.dxs, CodeSet(reg, IDTMC3D), SecondaryNonPoa)
    ensures c.status == Inclusion ==>
              ReportsDiagnoses(c, MatchedCodes, e.dxs, CodeSet(reg, IDTMC3D), SecondaryNonPoa)
    ensures !Surgical(e, reg) && !Medical(e, reg) && !Obstetric(e, reg) ==> c == Excluded(NotSurgicalMedicalOrObstetric)
    ensures var population := Surgical(e, reg) || Medical(e, reg) || Obstetric(e, reg);
            && (population && ShortStay(e) ==> c == Excluded(StayUnderTwoDays(e.lengthOfStay.value)))
            && (population && !ShortStay(e) && HasDx(e.dxs, CodeSet(reg, CANCEID), AnyDx) ==> c == Excluded(CancerPresent))
            && ((population && !ShortStay(e) && !HasDx(e.dxs, CodeSet(reg, CANCEID), AnyDx)
                 && !HasDx(e.dxs, CodeSet(reg, IDTMC3D), SecondaryNonPoa)) ==> c == Excluded(NoCentralLineInfection))
    ensures c.status == Inclusion ==>
              var s := Select(e.dxs, CodeSet(reg, IDTMC3D), SecondaryNonPoa);
              && |s| > 0
              && c == Classification(Inclusion, [CentralLineInfectionFound(s[0].code, s[0].poa)],
                                     map[MatchedCodes := Matches(Pairs(s))])
  {
    if !Surgical(e, reg) && !Medical(e, reg) && !Obstetric(e, reg) then Excluded(NotSurgicalMedicalOrObstetric)
    else if ShortStay(e) then Excluded(StayUnderTwoDays(e.lengthOfStay.value))
    else if HasDx(e.dxs, CodeSet(reg, CANCEID), AnyDx) then Excluded(CancerPresent)
    else
      var matches := Select(e.dxs, CodeSet(reg, IDTMC3D), SecondaryNonPoa);
      PairsOfSelection(e.dxs, CodeSet(reg, IDTMC3D), SecondaryNonPoa);
      if |matches| > 0 then
        Classification(Inclusion, [CentralLineInfectionFound(First(matches).code, First(matches).poa)],
                       map[MatchedCodes := Matches(Pairs(matches))])
      else
        Excluded(NoCentralLineInfection)
  }

  /** A Secondary, non-POA fracture that is also a hip fracture. */
  predicate HasHipFracture(e: Encounter, reg: Registry) {
    exists d :: d in e.dxs && d.code in CodeSet(reg, FXID) && Admits(SecondaryNonPoa, d)
                && d.code in CodeSet(reg, HIPFXID)
  }

  /** PSI_08, in-hospital fall with hip fracture (or other fracture). */
  function Psi08(e: Encounter, reg: Registry): (c: Classification)
    ensures WellFormed(c)
    ensures c.status == Inclusion <==>
              && (Surgical(e, reg) || Medical(e, reg))
              && !HasDx(e.dxs, CodeSet(reg, PROSFXID), AnyDx)
              && HasDx(e.dxs, CodeSet(reg, FXID), SecondaryNonPoa)
    ensures c.status == Inclusion ==>
              && FractureType in c.details
              && c.details[FractureType] in {Label("hip"), Label("other")}
              && (c.details[FractureType] == Label("hip") <==> HasHipFracture(e, reg))
    ensures c.status == Inclusion ==>
              ReportsDiagnoses(c, MatchedCodes, e.dxs, CodeSet(reg, FXID), SecondaryNonPoa)
    ensures !Surgical(e, reg) && !Medical(e, reg) ==> c == Excluded(NotSurgicalOrMedicalDrg)
    ensures var population := Surgical(e, reg) || Medical(e, reg);
            && (population && HasDx(e.dxs, CodeSet(reg, PROSFXID), AnyDx) ==> c == Excluded(ProstheticFracture))
            && ((population && !HasDx(e.dxs, CodeSet(reg, PROSFXID), AnyDx)
                 && !HasDx(e.dxs, CodeSet(reg, FXID), SecondaryNonPoa)) ==> c == Excluded(NoFracture))
    ensures c.status == Inclusion ==> FractureReported(c, e, reg)
  {
    if !Surgical(e, reg) && !Medical(e, reg) then Excluded(NotSurgicalOrMedicalDrg)
    else if HasDx(e.dxs, CodeSet(reg, PROSFXID), AnyDx) then Excluded(ProstheticFracture)
    else if HasDx(e.dxs, CodeSet(reg, FXID), SecondaryNonPoa) then FractureFound(e, reg)
    else Excluded(NoFracture)
  }

  /** The whole PSI_08 Inclusion: the reason quotes the first hip fracture among the
      fractures or, without one, the first fracture; `fracture_type` says which; and
      `matched_codes` lists every fracture in diagnosis order. */
  predicate FractureReported(c: Classification, e: Encounter, reg: Registry) {
    var fractures := Select(e.dxs, CodeSet(reg, FXID), SecondaryNonPoa);
    var hips := Select(fractures, CodeSet(reg, HIPFXID), AnyDx);
    && |fractures| > 0
    && c.status == Inclusion
    && c.rationale == [if |hips| > 0 then HipFractureFound(hips[0].code) else OtherFractureFound(fractures[0].code)]
    && c.details == map[FractureType := Label(if |hips| > 0 then "hip" else "other"),
                        MatchedCodes := Matches(Pairs(fractures))]
  }

  /** The PSI_08 Inclusion: a hip fracture takes priority over any other fracture. */
  function FractureFound(e: Encounter, reg: Registry): (c: Classification)
    requires HasDx(e.dxs, CodeSet(reg, FXID), SecondaryNonPoa)
    ensures WellFormed(c) && c.status == Inclusion
    ensures && FractureType in c.details
            && c.details[FractureType] in {Label("hip"), Label("other")}
            && (c.details[FractureType] == Label("hip") <==> HasHipFracture(e, reg))
    ensures ReportsDiagnoses(c, MatchedCodes, e.dxs, CodeSet(reg, FXID), SecondaryNonPoa)
    ensures FractureReported(c, e, reg)
  {
    var fractures := Select(e.dxs, CodeSet(reg, FXID), SecondaryNonPoa);
    PairsOfSelection(e.dxs, CodeSet(reg, FXID), SecondaryNonPoa);
    var hips := Select(fractures, CodeSet(reg, HIPFXID), AnyDx);
    assert |hips| > 0 <==> HasHipFracture(e, reg) by {
      if HasHipFracture(e, reg) {
        var d :| d in e.dxs && d.code in CodeSet(reg, FXID) && Admits(SecondaryNonPoa, d)
                 && d.code in CodeSet(reg, HIPFXID);
        assert d in hips;
      }
    }
    var found := if |hips| > 0 then HipFractureFound(First(hips).code) else OtherFractureFound(First(fractures).code);
    var kind := if |hips| > 0 then "hip" else "other";
    Classification(Inclusion, [found],
                   map[FractureType := Label(kind), MatchedCodes := Matches(Pairs(fractures))])
  }

  // ---------------------------------------------------------------------------
  // PSI_09 and PSI_10: diagnosis and procedure numerator

  /** PSI_09, perioperative hemorrhage or hematoma. */
  function Psi09(e: Encounter, reg: Registry): (c: Classification)
    ensures WellFormed(c)
    ensures c.status == Inclusion <==>
              && Surgical(e, reg)
              && HasOrProcedure(e, reg)
              && !HasDx(e.dxs, CodeSet(reg, COAGDID), AnyDx)
              && HasDx(e.dxs, CodeSet(reg, POHMRI2D), SecondaryNonPoa)
              && HasProcedure(e.procs, CodeSet(reg, HEMOTH2P))
              && !TreatmentNoLaterThanSurgery(e.procs, CodeSet(reg, ORPROC), CodeSet(reg, HEMOTH2P))
    ensures c.status == Inclusion ==>
              && ReportsDiagnoses(c, DxMatches, e.dxs, CodeSet(reg, POHMRI2D), SecondaryNonPoa)
              && ReportsProcedures(c, ProcMatches, e.procs, CodeSet(reg, HEMOTH2P))
    ensures var passes := Surgical(e, reg) && HasOrProcedure(e, reg) && !HasDx(e.dxs, CodeSet(reg, COAGDID), AnyDx);
            var dx := HasDx(e.dxs, CodeSet(reg, POHMRI2D), SecondaryNonPoa);
            var proc := HasProcedure(e.procs, CodeSet(reg, HEMOTH2P));
            && (c.rationale == [HemorrhageWithoutTreatment] <==> passes && dx && !proc)
            && (c.rationale == [TreatmentWithoutHemorrhage] <==> passes && !dx && proc)
            && (c.rationale == [NeitherHemorrhageNorTreatment] <==> passes && !dx && !proc)
    ensures !Surgical(e, reg) ==> c == Excluded(NotSurgicalDrg)
    ensures Surgical(e, reg) && !HasOrProcedure(e, reg) ==> c == Excluded(NoOrProcedures)
    ensures Surgical(e, reg) && HasOrProcedure(e, reg) && HasDx(e.dxs, CodeSet(reg, COAGDID), AnyDx) ==>
              c == Excluded(CoagulationDisorder)
    ensures Surgical(e, reg) && HasOrProcedure(e, reg) && !HasDx(e.dxs, CodeSet(reg, COAGDID), AnyDx)
            && HasDx(e.dxs, CodeSet(reg, POHMRI2D), SecondaryNonPoa) && HasProcedure(e.procs, CodeSet(reg, HEMOTH2P))
            && TreatmentNoLaterThanSurgery(e.procs, CodeSet(reg, ORPROC), CodeSet(reg, HEMOTH2P)) ==>
              && HasDated(e.procs, CodeSet(reg, HEMOTH2P))
              && c == Excluded(TreatmentBeforeSurgery(EarliestDated(e.procs, CodeSet(reg, HEMOTH2P)).value.code))
    ensures c.status == Inclusion ==>
              c == Classification(Inclusion, [HemorrhageAndTreatment],
                                  map[DxMatches := Matches(Pairs(Select(e.dxs, CodeSet(reg, POHMRI2D), SecondaryNonPoa))),
                                      ProcMatches := ProcCodes(ProcCodesIn(e.procs, CodeSet(reg, HEMOTH2P)))])
  {
    if !Surgical(e, reg) then Excluded(NotSurgicalDrg)
    else if !HasOrProcedure(e, reg) then Excluded(NoOrProcedures)
    else if HasDx(e.dxs, CodeSet(reg, COAGDID), AnyDx) then Excluded(CoagulationDisorder)
    else HemorrhageFindings(e, reg)
  }

  /** The PSI_09 numerator, reached once the population tests and the coagulation exclusion
      have passed: both a hemorrhage and a treatment, unless the timing check finds the
      earliest treatment no later than the earliest OR procedure. */
  function HemorrhageFindings(e: Encounter, reg: Registry): (c: Classification)
    ensures WellFormed(c)
    ensures var dx := HasDx(e.dxs, CodeSet(reg, POHMRI2D), SecondaryNonPoa);
            var proc := HasProcedure(e.procs, CodeSet(reg, HEMOTH2P));
            var treatedFirst := TreatmentNoLaterThanSurgery(e.procs, CodeSet(reg, ORPROC), CodeSet(reg, HEMOTH2P));
            && (c.status == Inclusion <==> dx && proc && !treatedFirst)
            && (dx && proc && treatedFirst ==>
                  && HasDated(e.procs, CodeSet(reg, HEMOTH2P))
                  && c == Excluded(TreatmentBeforeSurgery(EarliestDated(e.procs, CodeSet(reg, HEMOTH2P)).value.code)))
            && (c.rationale == [HemorrhageWithoutTreatment] <==> dx && !proc)
            && (c.rationale == [TreatmentWithoutHemorrhage] <==> !dx && proc)
            && (c.rationale == [NeitherHemorrhageNorTreatment] <==> !dx && !proc)
    ensures c.status == Inclusion ==>
              && ReportsDiagnoses(c, DxMatches, e.dxs, CodeSet(reg, POHMRI2D), SecondaryNonPoa)
              && ReportsProcedures(c, ProcMatches, e.procs, CodeSet(reg, HEMOTH2P))
              && c == Classification(Inclusion, [HemorrhageAndTreatment],
                                     map[DxMatches := Matches(Pairs(Select(e.dxs, CodeSet(reg, POHMRI2D), SecondaryNonPoa))),
                                         ProcMatches := ProcCodes(ProcCodesIn(e.procs, CodeSet(reg, HEMOTH2P)))])
  {
    var dxMatches := Select(e.dxs, CodeSet(reg, POHMRI2D), SecondaryNonPoa);
    var procMatches := ProcCodesIn(e.procs, CodeSet(reg, HEMOTH2P));
    PairsOfSelection(e.dxs, CodeSet(reg, POHMRI2D), SecondaryNonPoa);
    if |dxMatches| > 0 && |procMatches| > 0 then
      match CheckTimingExclusions(e.procs, CodeSet(reg, ORPROC), CodeSet(reg, HEMOTH2P))
      case TreatmentFirst(code) => Excluded(TreatmentBeforeSurgery(code))
      case _ =>
        Classification(Inclusion, [HemorrhageAndTreatment],
                       map[DxMatches := Matches(Pairs(dxMatches)), ProcMatches := ProcCodes(procMatches)])
    else if |dxMatches| > 0 then Excluded(HemorrhageWithoutTreatment)
    else if |procMatches| > 0 then Excluded(TreatmentWithoutHemorrhage)
    else Excluded(NeitherHemorrhageNorTreatment)
  }

  /** The cardiac and kidney exclusion codes of PSI_10: the four lists concatenated. */
  function CardiacCodes(reg: Registry): set<string> {
    CodeSet(reg, CARDIID) + CodeSet(reg, CARDRID) + CodeSet(reg, SHOCKID) + CodeSet(reg, CRENLFD)
  }

  /** PSI_10, postoperative acute kidney injury requiring dialysis. */
  function Psi10(e: Encounter, reg: Registry): (c: Classification)
    ensures WellFormed(c)
    ensures c.status == Inclusion <==>
              && Surgical(e, reg)
              && !HasDx(e.dxs, CardiacCodes(reg), PrincipalOrPoa)
              && HasDx(e.dxs, CodeSet(reg, PHYSIDB), SecondaryNonPoa)
              && HasProcedure(e.procs, CodeSet(reg, DIALYIP))
    ensures Surgical(e, reg) && HasDx(e.dxs, CardiacCodes(reg), PrincipalOrPoa) ==>
              && c.status == Exclusion
              && c.rationale[0].CardiacOrKidneyCondition?
              && FirstMatchCode(e.dxs, CardiacCodes(reg), PrincipalOrPoa, c.rationale[0].code)
    ensures c.status == Inclusion ==>
              && ReportsDiagnoses(c, DxMatches, e.dxs, CodeSet(reg, PHYSIDB), SecondaryNonPoa)
              && ReportsProcedures(c, ProcMatches, e.procs, CodeSet(reg, DIALYIP))
    ensures !Surgical(e, reg) ==> c == Excluded(NotSurgicalDrg)
    ensures Surgical(e, reg) && !HasDx(e.dxs, CardiacCodes(reg), PrincipalOrPoa)
            && !(HasDx(e.dxs, CodeSet(reg, PHYSIDB), SecondaryNonPoa) && HasProcedure(e.procs, CodeSet(reg, DIALYIP))) ==>
              c == Excluded(MissingKidneyFailureOrDialysis)
    ensures c.status == Inclusion ==>
              c == Classification(Inclusion, [KidneyFailureAndDialysis],
                                  map[DxMatches := Matches(Pairs(Select(e.dxs, CodeSet(reg, PHYSIDB), SecondaryNonPoa))),
                                      ProcMatches := ProcCodes(ProcCodesIn(e.procs, CodeSet(reg, DIALYIP)))])
  {
    if !Surgical(e, reg) then Excluded(NotSurgicalDrg)
    else
      var cardiac := Select(e.dxs, CardiacCodes(reg), PrincipalOrPoa);
      if |cardiac| > 0 then
        SelectHead(e.dxs, CardiacCodes(reg), PrincipalOrPoa);
        assert FirstMatch(e.dxs, CardiacCodes(reg), PrincipalOrPoa, First(cardiac));
        Excluded(CardiacOrKidneyCondition(First(cardiac).code))
      else
        var dxMatches := Select(e.dxs, CodeSet(reg, PHYSIDB), SecondaryNonPoa);
        var procMatches := ProcCodesIn(e.procs, CodeSet(reg, DIALYIP));
        PairsOfSelection(e.dxs, CodeSet(reg, PHYSIDB), SecondaryNonPoa);
        if |dxMatches| > 0 && |procMatches| > 0 then
          Classification(Inclusion, [KidneyFailureAndDialysis],
                         map[DxMatches := Matches(Pairs(dxMatches)), ProcMatches := ProcCodes(procMatches)])
        else
          Excluded(MissingKidneyFailureOrDialysis)
  }

  // ---------------------------------------------------------------------------
  // PSI_11 and PSI_12: lists of criteria

  const RespiratoryCriterion := "respiratory_failure_diagnosis"
  const VentilationCriterion := "ventilation_procedures"

  /** The neurological exclusion codes of PSI_11. */
  function NeuroCodes(reg: Registry): set<string> {
    CodeSet(reg, NEUROMD) + CodeSet(reg, MALHYPD)
  }

  /** The ventilation procedure codes of PSI_11. */
  function VentilationCodes(reg: Registry): set<string> {
    CodeSet(reg, PR9672P) + CodeSet(reg, PR9671P) + CodeSet(reg, PR9604P)
  }

  /** `criteria_met`, built by appending in the fixed order. */
  function MetCriteria(e: Encounter, reg: Registry): (criteria: seq<string>)
    ensures RespiratoryCriterion in criteria <==> HasDx(e.dxs, CodeSet(reg, ACURF2D), SecondaryNonPoa)
    ensures VentilationCriterion in criteria <==> HasProcedure(e.procs, VentilationCodes(reg))
    ensures |criteria| == (if HasDx(e.dxs, CodeSet(reg, ACURF2D), SecondaryNonPoa) then 1 else 0)
                         + (if HasProcedure(e.procs, VentilationCodes(reg)) then 1 else 0)
    ensures forall x :: x in criteria ==> x == RespiratoryCriterion || x == VentilationCriterion
    ensures |criteria| == 2 ==> criteria == [RespiratoryCriterion, VentilationCriterion]
  {
    (if HasDx(e.dxs, CodeSet(reg, ACURF2D), SecondaryNonPoa) then [RespiratoryCriterion] else [])
    + (if HasProcedure(e.procs, VentilationCodes(reg)) then [VentilationCriterion] else [])
  }

  /** PSI_11, postoperative respiratory failure. */
  function Psi11(e: Encounter, reg: Registry): (c: Classification)
    ensures WellFormed(c)
    ensures !Elective(e) ==> c == Excluded(NotElective(e.atype))
    ensures c.status == Inclusion <==>
              && Elective(e)
              && Surgical(e, reg)
              && !HasDx(e.dxs, NeuroCodes(reg), PoaDx)
              && (HasDx(e.dxs, CodeSet(reg, ACURF2D), SecondaryNonPoa) || HasProcedure(e.procs, VentilationCodes(reg)))
    ensures c.status == Inclusion ==>
              && CriteriaMet in c.details
              && c.details[CriteriaMet] == Labels(MetCriteria(e, reg))
              && c.rationale == [RespiratoryCriteriaMet(MetCriteria(e, reg))]
              && c.details == map[CriteriaMet := Labels(MetCriteria(e, reg))]
    ensures Elective(e) && !Surgical(e, reg) ==> c == Excluded(NotSurgicalDrg)
    ensures Elective(e) && Surgical(e, reg) && HasDx(e.dxs, NeuroCodes(reg), PoaDx) ==>
              var neuro := Select(e.dxs, NeuroCodes(reg), PoaDx);
              |neuro| > 0 && c == Excluded(NeurologicalCondition(neuro[0].code))
    ensures Elective(e) && Surgical(e, reg) && !HasDx(e.dxs, NeuroCodes(reg), PoaDx)
            && !HasDx(e.dxs, CodeSet(reg, ACURF2D), SecondaryNonPoa) && !HasProcedure(e.procs, VentilationCodes(reg)) ==>
              c == Excluded(NoRespiratoryCriteria)
  {
    if !Elective(e) then Excluded(NotElective(e.atype))
    else if !Surgical(e, reg) then Excluded(NotSurgicalDrg)
    else
      var neuro := Select(e.dxs, NeuroCodes(reg), PoaDx);
      if |neuro| > 0 then Excluded(NeurologicalCondition(First(neuro).code))
      else
        var criteria := MetCriteria(e, reg);
        if |criteria| > 0 then
          Classification(Inclusion, [RespiratoryCriteriaMet(criteria)], map[CriteriaMet := Labels(criteria)])
        else
          Excluded(NoRespiratoryCriteria)
  }

  /** `event_type`: "DVT" and then "PE", each when it has a match. */
  function VteEvents(dvt: bool, pe: bool): (events: seq<string>)
    ensures "DVT" in events <==> dvt
    ensures "PE" in events <==> pe
    ensures |events| == (if dvt then 1 else 0) + (if pe then 1 else 0)
    ensures forall x :: x in events ==> x == "DVT" || x == "PE"
    ensures |events| == 2 ==> events == ["DVT", "PE"]
  {
    (if dvt then ["DVT"] else []) + (if pe then ["PE"] else [])
  }

  /** PSI_12, perioperative pulmonary embolism or deep vein thrombosis. */
  function Psi12(e: Encounter, reg: Registry): (c: Classification)
    ensures WellFormed(c)
    ensures c.status == Inclusion <==>
              && Surgical(e, reg)
              && HasOrProcedure(e, reg)
              && !HasDx(e.dxs, CodeSet(reg, HITD), SecondaryDx)
              && (HasDx(e.dxs, CodeSet(reg, DEEPVIB), SecondaryNonPoa) || HasDx(e.dxs, CodeSet(reg, PULMOID), SecondaryNonPoa))
    ensures c.status == Inclusion ==>
              && ReportsDiagnoses(c, DvtMatches, e.dxs, CodeSet(reg, DEEPVIB), SecondaryNonPoa)
              && ReportsDiagnoses(c, PeMatches, e.dxs, CodeSet(reg, PULMOID), SecondaryNonPoa)
              && c.rationale == [VenousThromboembolism(VteEvents(HasDx(e.dxs, CodeSet(reg, DEEPVIB), SecondaryNonPoa),
                                                                 HasDx(e.dxs, CodeSet(reg, PULMOID), SecondaryNonPoa)))]
              && c.details == map[DvtMatches := Matches(Pairs(Select(e.dxs, CodeSet(reg, DEEPVIB), SecondaryNonPoa))),
                                  PeMatches := Matches(Pairs(Select(e.dxs, CodeSet(reg, PULMOID), SecondaryNonPoa)))]
    ensures !Surgical(e, reg) ==> c == Excluded(NotSurgicalDrg)
    ensures Surgical(e, reg) && !HasOrProcedure(e, reg) ==> c == Excluded(NoOrProcedures)
    ensures Surgical(e, reg) && HasOrProcedure(e, reg) && HasDx(e.dxs, CodeSet(reg, HITD), SecondaryDx) ==>
              c == Excluded(HeparinThrombocytopenia)
    ensures Surgical(e, reg) && HasOrProcedure(e, reg) && !HasDx(e.dxs, CodeSet(reg, HITD), SecondaryDx)
            && !HasDx(e.dxs, CodeSet(reg, DEEPVIB), SecondaryNonPoa) && !HasDx(e.dxs, CodeSet(reg, PULMOID), SecondaryNonPoa) ==>
              c == Excluded(NoVenousThromboembolism)
  {
    if !Surgical(e, reg) then Excluded(NotSurgicalDrg)
    else if !HasOrProcedure(e, reg) then Excluded(NoOrProcedures)
    else if HasDx(e.dxs, CodeSet(reg, HITD), SecondaryDx) then Excluded(HeparinThrombocytopenia)
    else
      var dvt := Select(e.dxs, CodeSet(reg, DEEPVIB), SecondaryNonPoa);
      var pe := Select(e.dxs, CodeSet(reg, PULMOID), SecondaryNonPoa);
      PairsOfSelection(e.dxs, CodeSet(reg, DEEPVIB), SecondaryNonPoa);
      PairsOfSelection(e.dxs, CodeSet(reg, PULMOID), SecondaryNonPoa);
      if |dvt| > 0 || |pe| > 0 then
        Classification(Inclusion, [VenousThromboembolism(VteEvents(|dvt| > 0, |pe| > 0))],
                       map[DvtMatches := Matches(Pairs(dvt)), PeMatches := Matches(Pairs(pe))])
      else
        Excluded(NoVenousThromboembolism)
  }

  // ---------------------------------------------------------------------------
  // PSI_13: postoperative sepsis

  /** An admission date is known, some OR procedure is dated, and every dated OR procedure
      is at least 10 days (rounded down) after admission. */
  predicate SurgeryLate(e: Encounter, reg: Registry) {
    && e.admissionDate.Some?
    && HasDated(e.procs, CodeSet(reg, ORPROC))
    && forall p :: p in e.procs && DatedIn(p, CodeSet(reg, ORPROC)) ==>
         DayOffset(e.admissionDate.value, p.stamp.value) >= 10
  }

  /** The late-surgery test: the days from admission to the earliest dated OR procedure, when
      both are known and that is at least 10. */
  function LateSurgeryDays(e: Encounter, reg: Registry): (days: Option<int>)
    ensures days.Some? <==> SurgeryLate(e, reg)
    ensures days.Some? ==> days.value >= 10
    ensures days.Some? ==> EarliestOffset(e.procs, CodeSet(reg, ORPROC), e.admissionDate.value, days.value)
  {
    if e.admissionDate.None? then None
    else
      match EarliestDated(e.procs, CodeSet(reg, ORPROC))
      case None => None
      case Some(first) =>
        var days := DayOffset(e.admissionDate.value, first.stamp.value);
        EarliestAtLeastDays(e.procs, CodeSet(reg, ORPROC), e.admissionDate.value, 10);
        EarliestHasEarliestOffset(e.procs, CodeSet(reg, ORPROC), e.admissionDate.value);
        if days >= 10 then Some(days) else None
  }

  /** PSI_13, postoperative sepsis. */
  function Psi13(e: Encounter, reg: Registry): (c: Classification)
    ensures WellFormed(c)
    ensures c.status == Inclusion <==>
              && Elective(e)
              && Surgical(e, reg)
              && HasOrProcedure(e, reg)
              && e.principalDx !in CodeSet(reg, SEPTI2D)
              && !HasDx(e.dxs, CodeSet(reg, SEPTI2D), SecondaryPoa)
              && e.principalDx !in CodeSet(reg, INFECID)
              && !HasDx(e.dxs, CodeSet(reg, INFECID), SecondaryPoa)
              && !SurgeryLate(e, reg)
              && HasDx(e.dxs, CodeSet(reg, SEPTI2D), SecondaryNonPoa)
    ensures c.status == Inclusion ==>
              ReportsDiagnoses(c, SepsisMatches, e.dxs, CodeSet(reg, SEPTI2D), SecondaryNonPoa)
    ensures !Elective(e) ==> c == Excluded(NotElective(e.atype))
    ensures Elective(e) && !Surgical(e, reg) ==> c == Excluded(NotSurgicalDrg)
    ensures Elective(e) && Surgical(e, reg) && !HasOrProcedure(e, reg) ==> c == Excluded(NoOrProcedures)
    ensures var before := Elective(e) && Surgical(e, reg) && HasOrProcedure(e, reg);
            && (before && e.principalDx in CodeSet(reg, SEPTI2D) ==> c == Excluded(PrincipalSepsis))
            && (before && e.principalDx !in CodeSet(reg, SEPTI2D) && HasDx(e.dxs, CodeSet(reg, SEPTI2D), SecondaryPoa) ==>
                  var s := Select(e.dxs, CodeSet(reg, SEPTI2D), SecondaryPoa);
                  |s| > 0 && c == Excluded(SepsisPresentOnAdmission(s[0].code)))
    ensures var before := && Elective(e) && Surgical(e, reg) && HasOrProcedure(e, reg)
                          && e.principalDx !in CodeSet(reg, SEPTI2D) && !HasDx(e.dxs, CodeSet(reg, SEPTI2D), SecondaryPoa);
            && (before && e.principalDx in CodeSet(reg, INFECID) ==> c == Excluded(PrincipalInfection))
            && (before && e.principalDx !in CodeSet(reg, INFECID) && HasDx(e.dxs, CodeSet(reg, INFECID), SecondaryPoa) ==>
                  var s := Select(e.dxs, CodeSet(reg, INFECID), SecondaryPoa);
                  |s| > 0 && c == Excluded(InfectionPresentOnAdmission(s[0].code)))
    ensures var before := && Elective(e) && Surgical(e, reg) && HasOrProcedure(e, reg)
                          && e.principalDx !in CodeSet(reg, SEPTI2D) && !HasDx(e.dxs, CodeSet(reg, SEPTI2D), SecondaryPoa)
                          && e.principalDx !in CodeSet(reg, INFECID) && !HasDx(e.dxs, CodeSet(reg, INFECID), SecondaryPoa);
            && (before && SurgeryLate(e, reg) ==>
                  LateSurgeryDays(e, reg).Some? && c == Excluded(LateSurgery(LateSurgeryDays(e, reg).value)))
            && (before && !SurgeryLate(e, reg) && !HasDx(e.dxs, CodeSet(reg, SEPTI2D), SecondaryNonPoa) ==>
                  c == Excluded(NoPostoperativeSepsis))
    ensures c.status == Inclusion ==>
              var s := Select(e.dxs, CodeSet(reg, SEPTI2D), SecondaryNonPoa);
              && |s| > 0
              && c == Classification(Inclusion, [PostoperativeSepsis(s[0].code, s[0].poa)],
                                     map[SepsisMatches := Matches(Pairs(s))])
  {
    if !Elective(e) then Excluded(NotElective(e.atype))
    else if !Surgical(e, reg) then Excluded(NotSurgicalDrg)
    else if !HasOrProcedure(e, reg) then Excluded(NoOrProcedures)
    else if e.principalDx in CodeSet(reg, SEPTI2D) then Excluded(PrincipalSepsis)
    else
      var poaSepsis := Select(e.dxs, CodeSet(reg, SEPTI2D), SecondaryPoa);
      if |poaSepsis| > 0 then Excluded(SepsisPresentOnAdmission(First(poaSepsis).code))
      else if e.principalDx in CodeSet(reg, INFECID) then Excluded(PrincipalInfection)
      else
        var poaInfection := Select(e.dxs, CodeSet(reg, INFECID), SecondaryPoa);
        if |poaInfection| > 0 then Excluded(InfectionPresentOnAdmission(First(poaInfection).code))
        else if LateSurgeryDays(e, reg).Some? then Excluded(LateSurgery(LateSurgeryDays(e, reg).value))
        else
          var postop := Select(e.dxs, CodeSet(reg, SEPTI2D), SecondaryNonPoa);
          PairsOfSelection(e.dxs, CodeSet(reg, SEPTI2D), SecondaryNonPoa);
          if |postop| > 0 then
            Classification(Inclusion, [PostoperativeSepsis(First(postop).code, First(postop).poa)],
                           map[SepsisMatches := Matches(Pairs(postop))])
          else
            Excluded(NoPostoperativeSepsis)
  }

  // ---------------------------------------------------------------------------
  // PSI_14: postoperative wound dehiscence

  /** `check_psi14_timing_exclusions` with the registry's code sets. */
  function ReclosureTimingOf(e: Encounter, reg: Registry): ReclosureTiming {
    CheckReclosureTiming(e.procs, CodeSet(reg, ABDOMIPOPEN), CodeSet(reg, ABDOMIPOTHER), CodeSet(reg, RECLOIP))
  }

  /** PSI_14, postoperative wound dehiscence; `validateTiming` switches the timing exclusion on. */
  function Psi14(e: Encounter, reg: Registry, validateTiming: bool): (c: Classification)
    ensures WellFormed(c)
    ensures c.status == Inclusion <==>
              && (HasProcedure(e.procs, CodeSet(reg, ABDOMIPOPEN)) || HasProcedure(e.procs, CodeSet(reg, ABDOMIPOTHER)))
              && e.principalDx !in CodeSet(reg, ABWALLCD)
              && !HasDx(e.dxs, CodeSet(reg, ABWALLCD), SecondaryPoa)
              && !ShortStay(e)
              && !(validateTiming && ReclosureNoLaterThanSurgery(e.procs, CodeSet(reg, ABDOMIPOPEN),
                                                                 CodeSet(reg, ABDOMIPOTHER), CodeSet(reg, RECLOIP)))
              && HasProcedure(e.procs, CodeSet(reg, RECLOIP))
              && HasDx(e.dxs, CodeSet(reg, ABWALLCD), NonPoaDx)
    ensures c.status == Inclusion ==>
              && c.details.Keys == {HasReclosure, WoundMatches, Stratum}
              && c.details[HasReclosure] == Flag(true)
              && ReportsDiagnoses(c, WoundMatches, e.dxs, CodeSet(reg, ABWALLCD), NonPoaDx)
              && c.details[Stratum] in {Label("open_approach"), Label("non_open_approach")}
              && (c.details[Stratum] == Label("open_approach") <==> HasProcedure(e.procs, CodeSet(reg, ABDOMIPOPEN)))
    ensures !HasProcedure(e.procs, CodeSet(reg, ABDOMIPOPEN)) && !HasProcedure(e.procs, CodeSet(reg, ABDOMIPOTHER)) ==>
              c == Excluded(NoAbdominopelvicSurgery)
    ensures var population := HasProcedure(e.procs, CodeSet(reg, ABDOMIPOPEN)) || HasProcedure(e.procs, CodeSet(reg, ABDOMIPOTHER));
            && (population && e.principalDx in CodeSet(reg, ABWALLCD) ==> c == Excluded(PrincipalWoundDisruption))
            && (population && e.principalDx !in CodeSet(reg, ABWALLCD) && HasDx(e.dxs, CodeSet(reg, ABWALLCD), SecondaryPoa) ==>
                  var w := Select(e.dxs, CodeSet(reg, ABWALLCD), SecondaryPoa);
                  |w| > 0 && c == Excluded(WoundDisruptionPresentOnAdmission(w[0].code)))
    ensures var before := && (HasProcedure(e.procs, CodeSet(reg, ABDOMIPOPEN)) || HasProcedure(e.procs, CodeSet(reg, ABDOMIPOTHER)))
                          && e.principalDx !in CodeSet(reg, ABWALLCD)
                          && !HasDx(e.dxs, CodeSet(reg, ABWALLCD), SecondaryPoa);
            var timing := validateTiming && ExcludesByTiming(ReclosureTimingOf(e, reg));
            && (before && ShortStay(e) ==> c == Excluded(StayUnderTwoDays(e.lengthOfStay.value)))
            && (before && !ShortStay(e) && timing ==> c == Excluded(ReclosureTimingExclusion(ReclosureTimingOf(e, reg))))
            && (before && !ShortStay(e) && !timing ==> c == WoundFindings(e, reg))
  {
    var hasOpen := HasProcedure(e.procs, CodeSet(reg, ABDOMIPOPEN));
    var hasOther := HasProcedure(e.procs, CodeSet(reg, ABDOMIPOTHER));
    if !(hasOpen || hasOther) then Excluded(NoAbdominopelvicSurgery)
    else if e.principalDx in CodeSet(reg, ABWALLCD) then Excluded(PrincipalWoundDisruption)
    else WoundExclusions(e, reg, validateTiming)
  }

  /** The PSI_14 exclusions after the principal-diagnosis test, in order: a POA wound
      disruption, a stay under two days, the reclosure timing (when switched on); then the
      numerator. */
  function WoundExclusions(e: Encounter, reg: Registry, validateTiming: bool): (c: Classification)
    ensures WellFormed(c)
    ensures c.status == Inclusion <==>
              && !HasDx(e.dxs, CodeSet(reg, ABWALLCD), SecondaryPoa)
              && !ShortStay(e)
              && !(validateTiming && ReclosureNoLaterThanSurgery(e.procs, CodeSet(reg, ABDOMIPOPEN),
                                                                 CodeSet(reg, ABDOMIPOTHER), CodeSet(reg, RECLOIP)))
              && HasProcedure(e.procs, CodeSet(reg, RECLOIP))
              && HasDx(e.dxs, CodeSet(reg, ABWALLCD), NonPoaDx)
    ensures HasDx(e.dxs, CodeSet(reg, ABWALLCD), SecondaryPoa) ==>
              var w := Select(e.dxs, CodeSet(reg, ABWALLCD), SecondaryPoa);
              |w| > 0 && c == Excluded(WoundDisruptionPresentOnAdmission(w[0].code))
    ensures var before := !HasDx(e.dxs, CodeSet(reg, ABWALLCD), SecondaryPoa);
            var timing := validateTiming && ExcludesByTiming(ReclosureTimingOf(e, reg));
            && (before && ShortStay(e) ==> c == Excluded(StayUnderTwoDays(e.lengthOfStay.value)))
            && (before && !ShortStay(e) && timing ==> c == Excluded(ReclosureTimingExclusion(ReclosureTimingOf(e, reg))))
            && (before && !ShortStay(e) && !timing ==> c == WoundFindings(e, reg))
  {
    var poaWound := Select(e.dxs, CodeSet(reg, ABWALLCD), SecondaryPoa);
    if |poaWound| > 0 then Excluded(WoundDisruptionPresentOnAdmission(First(poaWound).code))
    else if ShortStay(e) then Excluded(StayUnderTwoDays(e.lengthOfStay.value))
    else if validateTiming && ExcludesByTiming(ReclosureTimingOf(e, reg)) then
      Excluded(ReclosureTimingExclusion(ReclosureTimingOf(e, reg)))
    else WoundFindings(e, reg)
  }

  /** The PSI_14 numerator, reached once the population tests and the exclusions have passed:
      a reclosure procedure and a wound disruption not present on admission, in any position.
      The stratum is the open approach exactly when an open abdominopelvic procedure exists. */
  function WoundFindings(e: Encounter, reg: Registry): (c: Classification)
    ensures WellFormed(c)
    ensures var reclosure := HasProcedure(e.procs, CodeSet(reg, RECLOIP));
            var wound := HasDx(e.dxs, CodeSet(reg, ABWALLCD), NonPoaDx);
            && (c.status == Inclusion <==> reclosure && wound)
            && (reclosure && !wound ==> c == Excluded(ReclosureWithoutWoundDisruption))
            && (!reclosure && wound ==> c == Excluded(WoundDisruptionWithoutReclosure))
            && (!reclosure && !wound ==> c == Excluded(NeitherReclosureNorWoundDisruption))
    ensures c.status == Inclusion ==>
              && c.details.Keys == {HasReclosure, WoundMatches, Stratum}
              && c.details[HasReclosure] == Flag(true)
              && c.details[Stratum] in {Label("open_approach"), Label("non_open_approach")}
              && (c.details[Stratum] == Label("open_approach") <==> HasProcedure(e.procs, CodeSet(reg, ABDOMIPOPEN)))
    ensures c.status == Inclusion ==>
              && ReportsDiagnoses(c, WoundMatches, e.dxs, CodeSet(reg, ABWALLCD), NonPoaDx)
              && c == Classification(Inclusion, [ReclosureAndWoundDisruption],
                                     map[HasReclosure := Flag(true),
                                         WoundMatches := Matches(Pairs(Select(e.dxs, CodeSet(reg, ABWALLCD), NonPoaDx))),
                                         Stratum := Label(if HasProcedure(e.procs, CodeSet(reg, ABDOMIPOPEN))
                                                          then "open_approach" else "non_open_approach")])
  {
    var hasReclosure := HasProcedure(e.procs, CodeSet(reg, RECLOIP));
    var wound := Select(e.dxs, CodeSet(reg, ABWALLCD), NonPoaDx);
    PairsOfSelection(e.dxs, CodeSet(reg, ABWALLCD), NonPoaDx);
    if hasReclosure && |wound| > 0 then
      var stratum := if HasProcedure(e.procs, CodeSet(reg, ABDOMIPOPEN)) then "open_approach" else "non_open_approach";
      Classification(Inclusion, [ReclosureAndWoundDisruption],
                     map[HasReclosure := Flag(true), WoundMatches := Matches(Pairs(wound)),
                         Stratum := Label(stratum)])
    else if hasReclosure then Excluded(ReclosureWithoutWoundDisruption)
    else if |wound| > 0 then Excluded(WoundDisruptionWithoutReclosure)
    else Excluded(NeitherReclosureNorWoundDisruption)
  }

  // ---------------------------------------------------------------------------
  // PSI_15: abdominopelvic accidental puncture or laceration

  /** Organ `o` has a Principal or POA injury and a repair in the window after `index`. */
  predicate PoaInjuryRepaired(e: Encounter, reg: Registry, o: Organ, index: int) {
    && HasDx(e.dxs, CodeSet(reg, InjuryCodeSet(o)), PrincipalOrPoa)
    && exists p :: p in e.procs && Counts(p, CodeSet(reg, RepairCodeSet(o)), index)
  }

  /** Organ `o` has a Secondary non-POA injury and a repair in the window after `index`. */
  predicate InjuryRepaired(e: Encounter, reg: Registry, o: Organ, index: int) {
    && HasDx(e.dxs, CodeSet(reg, InjuryCodeSet(o)), SecondaryNonPoa)
    && exists p :: p in e.procs && Counts(p, CodeSet(reg, RepairCodeSet(o)), index)
  }

  /** The entries of the organs named, keyed by their reported names. */
  function EntriesByName(os: seq<Organ>, m: map<Organ, OrganResult>): map<string, OrganResult>
    requires forall o :: o in os ==> o in m
  {
    map o | o in os :: OrganName(o) := m[o]
  }

  /** No organ has a POA injury with a repair, and some organ has a Secondary non-POA injury
      with a repair, with the window counted from `index`. */
  ghost predicate OrganCriteria(e: Encounter, reg: Registry, index: int) {
    && (forall o :: !PoaInjuryRepaired(e, reg, o, index))
    && (exists o :: InjuryRepaired(e, reg, o, index))
  }

  /** `qualifying_organs` names, in enumeration order, exactly the organs with a Secondary
      non-POA injury and a repair in the window after `index`; the one reason names the same
      organs, and `organ_analysis` holds their entries and nothing else. */
  ghost predicate QualifyingReported(c: Classification, e: Encounter, reg: Registry, index: int) {
    && QualifyingOrgans in c.details
    && exists q :: && InEnumOrder(q)
                   && (forall o :: o in q <==> InjuryRepaired(e, reg, o, index))
                   && c.details[QualifyingOrgans] == Labels(OrganNames(q))
                   && (forall o :: o in q ==> o in OrganAnalysis(e.dxs, e.procs, reg))
                   && c == Classification(Inclusion, [OrganInjuryWithRepair(q)],
                                          map[QualifyingOrgans := Labels(OrganNames(q)),
                                              OrganBreakdown := OrganEntries(EntriesByName(q, OrganAnalysis(e.dxs, e.procs, reg)))])
  }

  /** The POA exclusion names, in enumeration order, exactly the organs with a Principal or POA
      injury and a repair in the window after `index`. */
  ghost predicate PoaOrgansReported(c: Classification, e: Encounter, reg: Registry, index: int) {
    exists q :: && InEnumOrder(q)
                && (forall o :: o in q <==> PoaInjuryRepaired(e, reg, o, index))
                && c == Excluded(OrganInjuryPresentOnAdmission(q))
  }

  /** Every outcome of the organ tests, with the window counted from `index`: the POA exclusion
      first, then the exclusion for no qualifying organ, then the Inclusion. */
  ghost predicate OrganOutcomeReported(c: Classification, e: Encounter, reg: Registry, index: int) {
    && ((exists o :: PoaInjuryRepaired(e, reg, o, index)) ==> PoaOrgansReported(c, e, reg, index))
    && ((forall o :: !PoaInjuryRepaired(e, reg, o, index)) && (forall o :: !InjuryRepaired(e, reg, o, index)) ==>
          c == Excluded(NoOrganInjuryWithRepair))
    && (c.status == Inclusion ==> QualifyingReported(c, e, reg, index))
  }

  /** PSI_15, abdominopelvic accidental puncture or laceration. */
  function Psi15(e: Encounter, reg: Registry): (c: Classification)
    ensures WellFormed(c)
    ensures c.status == Inclusion <==>
              && (Surgical(e, reg) || Medical(e, reg))
              && HasDated(e.procs, CodeSet(reg, ABDOMI15P))
              && OrganCriteria(e, reg, IndexStamp(e.procs, reg).value)
    ensures ((Surgical(e, reg) || Medical(e, reg)) && HasProcedure(e.procs, CodeSet(reg, ABDOMI15P))
             && !HasDated(e.procs, CodeSet(reg, ABDOMI15P))) ==> c == Excluded(MissingAbdominopelvicDates)
    ensures c.status == Inclusion ==>
              HasDated(e.procs, CodeSet(reg, ABDOMI15P)) && QualifyingReported(c, e, reg, IndexStamp(e.procs, reg).value)
    ensures !Surgical(e, reg) && !Medical(e, reg) ==> c == Excluded(NotSurgicalOrMedicalDrg)
    ensures (Surgical(e, reg) || Medical(e, reg)) && !HasProcedure(e.procs, CodeSet(reg, ABDOMI15P)) ==>
              c == Excluded(NoAbdominopelvicProcedures)
    ensures (Surgical(e, reg) || Medical(e, reg)) && HasDated(e.procs, CodeSet(reg, ABDOMI15P)) ==>
              OrganOutcomeReported(c, e, reg, IndexStamp(e.procs, reg).value)
  {
    if !Surgical(e, reg) && !Medical(e, reg) then Excluded(NotSurgicalOrMedicalDrg)
    else if !HasProcedure(e.procs, CodeSet(reg, ABDOMI15P)) then Excluded(NoAbdominopelvicProcedures)
    else if !HasDated(e.procs, CodeSet(reg, ABDOMI15P)) then Excluded(MissingAbdominopelvicDates)
    else OrganFindings(e, reg)
  }

  /** The organ analysis read by the two organ tests, in terms of the encounter. */
  function OrganFindings(e: Encounter, reg: Registry): (c: Classification)
    requires HasDated(e.procs, CodeSet(reg, ABDOMI15P))
    ensures WellFormed(c)
    ensures c.status == Inclusion <==> OrganCriteria(e, reg, IndexStamp(e.procs, reg).value)
    ensures c.status == Inclusion ==> QualifyingReported(c, e, reg, IndexStamp(e.procs, reg).value)
    ensures OrganOutcomeReported(c, e, reg, IndexStamp(e.procs, reg).value)
  {
    var index := IndexStamp(e.procs, reg).value;
    var analysis := OrganAnalysis(e.dxs, e.procs, reg);
    OrganReadings(e, reg, index);
    var c := OrganOutcome(analysis);
    OutcomeReadsEncounter(e, reg, index, analysis, c);
    c
  }

  /** Carries the organ outcome's contract over to the encounter, organ test by organ test. */
  lemma OutcomeReadsEncounter(e: Encounter, reg: Registry, index: int, analysis: map<Organ, OrganResult>,
                              c: Classification)
    requires analysis == OrganAnalysis(e.dxs, e.procs, reg)
    requires ReadsEncounter(analysis, e, reg, index)
    requires c.status == Inclusion <==> AnalysisQualifies(analysis)
    requires c.status == Inclusion ==> QualifyingListed(c, analysis)
    requires OrganOutcomeListed(c, analysis)
    ensures c.status == Inclusion <==> OrganCriteria(e, reg, index)
    ensures c.status == Inclusion ==> QualifyingReported(c, e, reg, index)
    ensures OrganOutcomeReported(c, e, reg, index)
  {
    if c.status == Inclusion {
      QualifyingReadsEncounter(e, reg, index, analysis, c);
    }
    if exists o :: PoaInjuryRepaired(e, reg, o, index) {
      var o :| PoaInjuryRepaired(e, reg, o, index);
      assert Passes(PoaInjuryWithRepair, analysis[o]);
      PoaReadsEncounter(e, reg, index, analysis, c);
    }
  }

  /** The Inclusion's organ list, read off the analysis, is the one the encounter determines. */
  lemma QualifyingReadsEncounter(e: Encounter, reg: Registry, index: int, analysis: map<Organ, OrganResult>,
                                 c: Classification)
    requires analysis == OrganAnalysis(e.dxs, e.procs, reg)
    requires ReadsEncounter(analysis, e, reg, index)
    requires QualifyingListed(c, analysis)
    ensures QualifyingReported(c, e, reg, index)
  {
    var q :| && InEnumOrder(q)
             && (forall o :: o in q <==> o in analysis && Passes(MeetsNumerator, analysis[o]))
             && c.details[QualifyingOrgans] == Labels(OrganNames(q))
             && (forall o :: o in q ==> o in analysis)
             && c == Classification(Inclusion, [OrganInjuryWithRepair(q)],
                                    map[QualifyingOrgans := Labels(OrganNames(q)),
                                        OrganBreakdown := OrganEntries(EntriesByName(q, analysis))]);
    assert forall o :: o in q <==> InjuryRepaired(e, reg, o, index);
  }

  /** The POA exclusion's organ list, read off the analysis, is the one the encounter determines. */
  lemma PoaReadsEncounter(e: Encounter, reg: Registry, index: int, analysis: map<Organ, OrganResult>,
                          c: Classification)
    requires ReadsEncounter(analysis, e, reg, index)
    requires PoaOrgansListed(c, analysis)
    ensures PoaOrgansReported(c, e, reg, index)
  {
    var q :| && InEnumOrder(q)
             && (forall o :: o in q <==> o in analysis && Passes(PoaInjuryWithRepair, analysis[o]))
             && c == Excluded(OrganInjuryPresentOnAdmission(q));
    assert forall o :: o in q <==> PoaInjuryRepaired(e, reg, o, index);
  }

  /** Every organ has an entry. */
  ghost predicate Complete(analysis: map<Organ, OrganResult>) {
    forall o :: o in analysis
  }

  /** The organs whose entry passes `t`, in enumeration order: the loops over the organ
      analysis in PSI_15. */
  function OrgansWith(analysis: map<Organ, OrganResult>, t: OrganTest): (r: seq<Organ>)
    requires Complete(analysis)
    ensures InEnumOrder(r)
    ensures forall o :: o in r <==> Passes(t, analysis[o])
    ensures |r| > 0 <==> exists o :: Passes(t, analysis[o])
  {
    var r := OrgansPassing(AllOrgans, analysis, t);
    assert InEnumOrder(AllOrgans) by { OrgansEnumerated(); }
    assert forall o :: o in r <==> Passes(t, analysis[o]) by {
      forall o ensures o in r <==> Passes(t, analysis[o]) { OrganListed(o); }
    }
    assert |r| > 0 ==> r[0] in r;
    r
  }

  /** No organ's entry has a POA injury with a repair, and some organ's entry meets the
      numerator. */
  ghost predicate AnalysisQualifies(analysis: map<Organ, OrganResult>) {
    && (forall o :: o in analysis ==> !Passes(PoaInjuryWithRepair, analysis[o]))
    && (exists o :: o in analysis && Passes(MeetsNumerator, analysis[o]))
  }

  /** `qualifying_organs` names, in enumeration order, exactly the organs whose entry meets
      the numerator. */
  ghost predicate QualifyingListed(c: Classification, analysis: map<Organ, OrganResult>) {
    && QualifyingOrgans in c.details
    && exists q :: && InEnumOrder(q)
                   && (forall o :: o in q <==> o in analysis && Passes(MeetsNumerator, analysis[o]))
                   && c.details[QualifyingOrgans] == Labels(OrganNames(q))
                   && (forall o :: o in q ==> o in analysis)
                   && c == Classification(Inclusion, [OrganInjuryWithRepair(q)],
                                          map[QualifyingOrgans := Labels(OrganNames(q)),
                                              OrganBreakdown := OrganEntries(EntriesByName(q, analysis))])
  }

  /** The POA exclusion names, in enumeration order, exactly the organs whose entry has a
      Principal or POA injury and a repair in the window. */
  ghost predicate PoaOrgansListed(c: Classification, analysis: map<Organ, OrganResult>) {
    exists q :: && InEnumOrder(q)
                && (forall o :: o in q <==> o in analysis && Passes(PoaInjuryWithRepair, analysis[o]))
                && c == Excluded(OrganInjuryPresentOnAdmission(q))
  }

  /** Every outcome of the organ tests over a complete analysis, in the engine's order. */
  ghost predicate OrganOutcomeListed(c: Classification, analysis: map<Organ, OrganResult>)
    requires Complete(analysis)
  {
    && ((exists o :: Passes(PoaInjuryWithRepair, analysis[o])) ==> PoaOrgansListed(c, analysis))
    && ((forall o :: !Passes(PoaInjuryWithRepair, analysis[o])) && (forall o :: !Passes(MeetsNumerator, analysis[o])) ==>
          c == Excluded(NoOrganInjuryWithRepair))
  }

  /** The organ-by-organ part of PSI_15 over a complete analysis: an organ with a POA injury
      and a repair excludes, naming every such organ; otherwise the organs meeting the
      numerator include, named in enumeration order. */
  function OrganOutcome(analysis: map<Organ, OrganResult>): (c: Classification)
    requires Complete(analysis)
    ensures WellFormed(c)
    ensures c.status == Inclusion <==> AnalysisQualifies(analysis)
    ensures c.status == Exclusion && (exists o :: Passes(PoaInjuryWithRepair, analysis[o])) ==>
              && c.rationale[0].OrganInjuryPresentOnAdmission?
              && forall o :: o in c.rationale[0].organs <==> Passes(PoaInjuryWithRepair, analysis[o])
    ensures c.status == Inclusion ==> QualifyingListed(c, analysis)
    ensures OrganOutcomeListed(c, analysis)
  {
    var poaExclusions := OrgansWith(analysis, PoaInjuryWithRepair);
    if |poaExclusions| > 0 then PoaExclusion(analysis, poaExclusions)
    else QualifyingOutcome(analysis)
  }

  /** The organ tests once no organ has a POA injury with a repair: the organs meeting the
      numerator include, and without one the encounter is excluded. */
  function QualifyingOutcome(analysis: map<Organ, OrganResult>): (c: Classification)
    requires Complete(analysis)
    requires forall o :: !Passes(PoaInjuryWithRepair, analysis[o])
    ensures WellFormed(c)
    ensures c.status == Inclusion <==> exists o :: Passes(MeetsNumerator, analysis[o])
    ensures c.status == Inclusion ==> QualifyingListed(c, analysis)
    ensures (forall o :: !Passes(MeetsNumerator, analysis[o])) ==> c == Excluded(NoOrganInjuryWithRepair)
  {
    var qualifying := OrgansWith(analysis, MeetsNumerator);
    if |qualifying| > 0 then OrganInclusion(analysis, qualifying)
    else Excluded(NoOrganInjuryWithRepair)
  }

  /** The Exclusion that names the organs with a POA injury and a repair. */
  function PoaExclusion(analysis: map<Organ, OrganResult>, organs: seq<Organ>): (c: Classification)
    requires Complete(analysis) && InEnumOrder(organs)
    requires forall o :: o in organs <==> Passes(PoaInjuryWithRepair, analysis[o])
    ensures WellFormed(c) && c.status == Exclusion
    ensures c.rationale[0].OrganInjuryPresentOnAdmission?
    ensures forall o :: o in c.rationale[0].organs <==> Passes(PoaInjuryWithRepair, analysis[o])
    ensures PoaOrgansListed(c, analysis)
  {
    Excluded(OrganInjuryPresentOnAdmission(organs))
  }

  /** The Inclusion that names the qualifying organs and their entries. */
  function OrganInclusion(analysis: map<Organ, OrganResult>, qualifying: seq<Organ>): (c: Classification)
    requires Complete(analysis) && |qualifying| > 0 && InEnumOrder(qualifying)
    requires forall o :: o in qualifying <==> Passes(MeetsNumerator, analysis[o])
    ensures WellFormed(c) && c.status == Inclusion
    ensures QualifyingListed(c, analysis)
  {
    var c := Classification(Inclusion, [OrganInjuryWithRepair(qualifying)],
                            map[QualifyingOrgans := Labels(OrganNames(qualifying)),
                                OrganBreakdown := OrganEntries(EntriesByName(qualifying, analysis))]);
    assert c.details[QualifyingOrgans] == Labels(OrganNames(qualifying));
    c
  }

  /** Each organ's entry answers the two organ tests as the encounter does. */
  ghost predicate ReadsEncounter(analysis: map<Organ, OrganResult>, e: Encounter, reg: Registry, index: int) {
    forall o :: && o in analysis
                && (Passes(PoaInjuryWithRepair, analysis[o]) <==> PoaInjuryRepaired(e, reg, o, index))
                && (Passes(MeetsNumerator, analysis[o]) <==> InjuryRepaired(e, reg, o, index))
  }

  /** With a dated index procedure, every organ has an entry, and the two organ tests read
      the encounter directly. */
  lemma OrganReadings(e: Encounter, reg: Registry, index: int)
    requires HasDated(e.procs, CodeSet(reg, ABDOMI15P)) && index == IndexStamp(e.procs, reg).value
    ensures Complete(OrganAnalysis(e.dxs, e.procs, reg))
    ensures ReadsEncounter(OrganAnalysis(e.dxs, e.procs, reg), e, reg, index)
  {
    OrganAnalysisShape(e.dxs, e.procs, reg);
    forall o
      ensures Passes(PoaInjuryWithRepair, OrganAnalysis(e.dxs, e.procs, reg)[o]) <==> PoaInjuryRepaired(e, reg, o, index)
      ensures Passes(MeetsNumerator, OrganAnalysis(e.dxs, e.procs, reg)[o]) <==> InjuryRepaired(e, reg, o, index)
    {
      OrganPoaWithRepair(e.dxs, e.procs, reg, o, index);
      OrganMeetsNumerator(e.dxs, e.procs, reg, o, index);
    }
  }

  // ---------------------------------------------------------------------------
  // The dispatcher

  /** The indicators the engine has a branch for. */
  datatype Indicator = PSI05 | PSI06 | PSI07 | PSI08 | PSI09 | PSI10 | PSI11 | PSI12 | PSI13 | PSI14 | PSI15

  /** The name the engine compares `psi_name` with. */
  function IndicatorName(i: Indicator): string {
    match i
    case PSI05 => "PSI_05"
    case PSI06 => "PSI_06"
    case PSI07 => "PSI_07"
    case PSI08 => "PSI_08"
    case PSI09 => "PSI_09"
    case PSI10 => "PSI_10"
    case PSI11 => "PSI_11"
    case PSI12 => "PSI_12"
    case PSI13 => "PSI_13"
    case PSI14 => "PSI_14"
    case PSI15 => "PSI_15"
  }

  /** The indicator whose branch `name` selects, if any. */
  function IndicatorNamed(name: string): (i: Option<Indicator>)
    ensures i.Some? ==> IndicatorName(i.value) == name
    ensures i.None? ==> forall j :: IndicatorName(j) != name
  {
    if name == "PSI_05" then Some(PSI05)
    else if name == "PSI_06" then Some(PSI06)
    else if name == "PSI_07" then Some(PSI07)
    else if name == "PSI_08" then Some(PSI08)
    else if name == "PSI_09" then Some(PSI09)
    else if name == "PSI_10" then Some(PSI10)
    else if name == "PSI_11" then Some(PSI11)
    else if name == "PSI_12" then Some(PSI12)
    else if name == "PSI_13" then Some(PSI13)
    else if name == "PSI_14" then Some(PSI14)
    else if name == "PSI_15" then Some(PSI15)
    else None
  }

  /** The branch of one indicator, after the preamble. */
  function Indicate(e: Encounter, i: Indicator, reg: Registry, validateTiming: bool): (c: Classification)
    ensures WellFormed(c)
  {
    match i
    case PSI05 => Psi05(e, reg)
    case PSI06 => Psi06(e, reg)
    case PSI07 => Psi07(e, reg)
    case PSI08 => Psi08(e, reg)
    case PSI09 => Psi09(e, reg)
    case PSI10 => Psi10(e, reg)
    case PSI11 => Psi11(e, reg)
    case PSI12 => Psi12(e, reg)
    case PSI13 => Psi13(e, reg)
    case PSI14 => Psi14(e, reg, validateTiming)
    case PSI15 => Psi15(e, reg)
  }

  /** `evaluate_psi_comprehensive` on a normalised encounter: the preamble, then the branch
      for `name`; a name with no branch falls through with Exclusion and no rationale. */
  function Classify(e: Encounter, name: string, reg: Registry, validateTiming: bool): (c: Classification)
    ensures Preamble(e, reg).Some? ==> c == Excluded(Preamble(e, reg).value)
    ensures Preamble(e, reg).None? && IndicatorNamed(name).None? ==> c == Classification(Exclusion, [], map[])
    ensures Preamble(e, reg).None? && IndicatorNamed(name).Some? ==>
              c == Indicate(e, IndicatorNamed(name).value, reg, validateTiming)
    ensures c.status == Inclusion <==> |c.details| > 0
    ensures c.status == Inclusion ==> Preamble(e, reg).None? && IndicatorNamed(name).Some?
  {
    match Preamble(e, reg)
    case Some(r) => Excluded(r)
    case None =>
      match IndicatorNamed(name)
      case None => Classification(Exclusion, [], map[])
      case Some(i) => Indicate(e, i, reg, validateTiming)
  }

  /** `evaluate_psi_comprehensive` on a raw row: normalise, then classify. */
  function Evaluate(row: RawRow, parse: DateParser, name: string, reg: Registry, validateTiming: bool)
    : (c: Classification)
    ensures row.age.Some? && row.age.value < 18 ==> c == Excluded(AgeUnder18(row.age.value))
    ensures c.status == Inclusion ==> exists i :: IndicatorName(i) == name
  {
    Classify(Normalize(row, parse), name, reg, validateTiming)
  }
}
