/** Properties of the engine that relate several indicators, both values of the timing switch,
    or concrete encounters. */
module EngineProperties {
  import opened Wrappers
  import opened Codes
  import opened Records
  import opened Timing
  import opened Organs
  import opened Engine

  // ---------------------------------------------------------------------------
  // The dispatcher

  /** The names the engine branches on select their own indicators. */
  lemma NamesSelectIndicators()
    ensures forall i :: IndicatorNamed(IndicatorName(i)) == Some(i)
  {
    forall i ensures IndicatorNamed(IndicatorName(i)) == Some(i) {
      match i
      case PSI05 => assert IndicatorName(i) == "PSI_05";
      case PSI06 => assert IndicatorName(i) == "PSI_06";
      case PSI07 => assert IndicatorName(i) == "PSI_07";
      case PSI08 => assert IndicatorName(i) == "PSI_08";
      case PSI09 => assert IndicatorName(i) == "PSI_09";
      case PSI10 => assert IndicatorName(i) == "PSI_10";
      case PSI11 => assert IndicatorName(i) == "PSI_11";
      case PSI12 => assert IndicatorName(i) == "PSI_12";
      case PSI13 => assert IndicatorName(i) == "PSI_13";
      case PSI14 => assert IndicatorName(i) == "PSI_14";
      case PSI15 => assert IndicatorName(i) == "PSI_15";
    }
  }

  /** Past the preamble, the name of an indicator runs exactly that indicator's branch. */
  lemma ClassifyRunsBranch(e: Encounter, i: Indicator, reg: Registry, validateTiming: bool)
    requires Preamble(e, reg).None?
    ensures Classify(e, IndicatorName(i), reg, validateTiming) == Indicate(e, i, reg, validateTiming)
  {
    NamesSelectIndicators();
  }

  /** Every path through a known indicator gives one rationale entry and details exactly on
      Inclusion; a name with no branch gives Exclusion with no rationale at all. */
  lemma ClassifyShape(e: Encounter, name: string, reg: Registry, validateTiming: bool)
    ensures (exists i :: IndicatorName(i) == name) ==> WellFormed(Classify(e, name, reg, validateTiming))
    ensures (forall i :: IndicatorName(i) != name) && Preamble(e, reg).None? ==>
              Classify(e, name, reg, validateTiming) == Classification(Exclusion, [], map[])
  {
    if exists i :: IndicatorName(i) == name {
      var i :| IndicatorName(i) == name;
      NamesSelectIndicators();
      assert IndicatorNamed(name) == Some(i);
    } else if Preamble(e, reg).None? {
      assert IndicatorNamed(name).None?;
    }
  }

  /** The timing switch changes nothing outside PSI_14. */
  lemma TimingSwitchOnlyPsi14(e: Encounter, name: string, reg: Registry)
    requires name != IndicatorName(PSI14)
    ensures Classify(e, name, reg, true) == Classify(e, name, reg, false)
  {
    if Preamble(e, reg).None? && IndicatorNamed(name).Some? {
      assert IndicatorNamed(name).value != PSI14;
    }
  }

  /** In PSI_14 the timing check only adds exclusions: an encounter included with the check on
      is included, with the same details, with it off. */
  lemma TimingOnlyExcludes(e: Encounter, reg: Registry)
    ensures Psi14(e, reg, true).status == Inclusion ==> Psi14(e, reg, false) == Psi14(e, reg, true)
  {
  }

  // ---------------------------------------------------------------------------
  // The obstetric alternatives of PSI_05 and PSI_07

  /** The preamble has already excluded MDC 14 principal diagnoses, so the obstetric
      alternative in the PSI_05 and PSI_07 population tests never admits an encounter: an
      included encounter always has a surgical (PSI_05) or surgical or medical (PSI_07) DRG. */
  lemma ObstetricAlternativeDead(e: Encounter, reg: Registry, validateTiming: bool)
    ensures Classify(e, IndicatorName(PSI05), reg, validateTiming).status == Inclusion ==> Surgical(e, reg)
    ensures Classify(e, IndicatorName(PSI07), reg, validateTiming).status == Inclusion ==>
              Surgical(e, reg) || Medical(e, reg)
  {
    if Preamble(e, reg).None? {
      ClassifyRunsBranch(e, PSI05, reg, validateTiming);
      ClassifyRunsBranch(e, PSI07, reg, validateTiming);
    }
  }

  /** An obstetric encounter with a retained item and a non-surgical DRG. */
  function ObstetricRetainedItem(): Encounter {
    Encounter(Some(30), "775", "O80", Some(1), Some(775), Some(0), Some(3),
              [Diagnosis("O80", N, Principal, 1), Diagnosis("T8140", N, Secondary, 2)], [])
  }

  function ObstetricRegistry(): Registry {
    map[MDC14PRINDX := {"O80"}, FOREIID := {"T8140"}]
  }

  /** The PSI_05 branch on its own would include this obstetric encounter through the
      obstetric alternative, but the engine excludes it in the preamble. */
  lemma ObstetricAlternativeShadowed()
    ensures Psi05(ObstetricRetainedItem(), ObstetricRegistry()).status == Inclusion
    ensures Classify(ObstetricRetainedItem(), IndicatorName(PSI05), ObstetricRegistry(), false)
            == Excluded(ObstetricCase)
  {
    ObstetricRetainedItemFacts();
    PreambleExcludesObstetric(ObstetricRetainedItem(), ObstetricRegistry());
  }

  /** The sample is obstetric, and its secondary diagnosis is a non-POA retained item. */
  lemma ObstetricRetainedItemFacts()
    ensures Obstetric(ObstetricRetainedItem(), ObstetricRegistry())
    ensures HasDx(ObstetricRetainedItem().dxs, CodeSet(ObstetricRegistry(), FOREIID), SecondaryNonPoa)
    ensures ObstetricRetainedItem().age == Some(30) && ObstetricRetainedItem().drg == Some(775)
  {
    var e := ObstetricRetainedItem();
    assert e.dxs[1] in e.dxs && Admits(SecondaryNonPoa, e.dxs[1]);
  }

  /** An adult obstetric case with a groupable DRG is excluded as obstetric whatever the
      indicator. */
  lemma PreambleExcludesObstetric(e: Encounter, reg: Registry)
    requires Obstetric(e, reg) && e.drg != Some(999) && !(e.age.Some? && e.age.value < 18)
    ensures forall name, vt :: Classify(e, name, reg, vt) == Excluded(ObstetricCase)
  {
  }

  // ---------------------------------------------------------------------------
  // PSI_13

  /** The exclusions of PSI_13 apply in order: ATYPE, DRG, OR presence, principal sepsis,
      POA sepsis, principal infection, POA infection, late surgery; each one's reason appears
      exactly when it applies and every earlier one does not. */
  lemma Psi13ExclusionOrder(e: Encounter, reg: Registry)
    ensures var c := Psi13(e, reg);
            && (c.rationale[0].NotElective? <==> !Elective(e))
            && (c.rationale[0].NotSurgicalDrg? <==> Elective(e) && !Surgical(e, reg))
            && (c.rationale[0].NoOrProcedures? <==> Elective(e) && Surgical(e, reg) && !HasOrProcedure(e, reg))
            && (c.rationale[0].PrincipalSepsis? <==>
                  Elective(e) && Surgical(e, reg) && HasOrProcedure(e, reg) && e.principalDx in CodeSet(reg, SEPTI2D))
    ensures var c := Psi13(e, reg);
            var before := && Elective(e) && Surgical(e, reg) && HasOrProcedure(e, reg)
                          && e.principalDx !in CodeSet(reg, SEPTI2D);
            && (c.rationale[0].SepsisPresentOnAdmission? <==> before && HasDx(e.dxs, CodeSet(reg, SEPTI2D), SecondaryPoa))
            && (c.rationale[0].PrincipalInfection? <==>
                  before && !HasDx(e.dxs, CodeSet(reg, SEPTI2D), SecondaryPoa) && e.principalDx in CodeSet(reg, INFECID))
    ensures var c := Psi13(e, reg);
            var before := && Elective(e) && Surgical(e, reg) && HasOrProcedure(e, reg)
                          && e.principalDx !in CodeSet(reg, SEPTI2D)
                          && !HasDx(e.dxs, CodeSet(reg, SEPTI2D), SecondaryPoa)
                          && e.principalDx !in CodeSet(reg, INFECID);
            && (c.rationale[0].InfectionPresentOnAdmission? <==> before && HasDx(e.dxs, CodeSet(reg, INFECID), SecondaryPoa))
            && (c.rationale[0].LateSurgery? <==>
                  before && !HasDx(e.dxs, CodeSet(reg, INFECID), SecondaryPoa) && SurgeryLate(e, reg))
  {
  }

  /** An elective surgical encounter with postoperative sepsis whose only OR procedure is dated
      `stamp` seconds after an admission at time 0. */
  function SepsisAfterSurgery(stamp: int): Encounter {
    Encounter(Some(60), "330", "K359", Some(3), Some(330), Some(0), Some(14),
              [Diagnosis("K359", Y, Principal, 1), Diagnosis("A419", N, Secondary, 2)],
              [Procedure("0DTJ4ZZ", Some(stamp), 1)])
  }

  function SepsisRegistry(): Registry {
    map[SURGI2R := {"330"}, ORPROC := {"0DTJ4ZZ"}, SEPTI2D := {"A419"}]
  }

  /** Surgery eleven days after admission excludes the encounter as late surgery. */
  lemma SurgeryAfterTenDaysExcluded()
    ensures Classify(SepsisAfterSurgery(11 * SecondsPerDay), IndicatorName(PSI13), SepsisRegistry(), false)
            == Excluded(LateSurgery(11))
  {
    var reg := SepsisRegistry();
    var e := SepsisAfterSurgery(11 * SecondsPerDay);
    SampleRunsPsi13(11 * SecondsPerDay);
    SepsisAfterSurgeryPasses(11 * SecondsPerDay);
    SampleLate();
  }

  /** Eleven whole days is late surgery. */
  lemma SampleLate()
    ensures LateSurgeryDays(SepsisAfterSurgery(11 * SecondsPerDay), SepsisRegistry()) == Some(11)
  {
    SampleSurgeryDays(11 * SecondsPerDay);
    assert DayOffset(0, 11 * SecondsPerDay) == 11;
  }

  /** Surgery one second short of ten days after admission is nine whole days, so it is not
      late, and the postoperative sepsis is included. */
  lemma SurgeryJustInsideTenDaysIncluded()
    ensures Classify(SepsisAfterSurgery(10 * SecondsPerDay - 1), IndicatorName(PSI13), SepsisRegistry(), false)
            == Classification(Inclusion, [PostoperativeSepsis("A419", N)],
                              map[SepsisMatches := Matches([("A419", N)])])
  {
    var reg := SepsisRegistry();
    var e := SepsisAfterSurgery(10 * SecondsPerDay - 1);
    SampleRunsPsi13(10 * SecondsPerDay - 1);
    SepsisAfterSurgeryPasses(10 * SecondsPerDay - 1);
    SampleNotLate();
    SamplePostoperativeSepsis(10 * SecondsPerDay - 1);
    Psi13IncludesSingle(e, reg, e.dxs[1]);
  }

  /** Nine whole days is not late surgery. */
  lemma SampleNotLate()
    ensures LateSurgeryDays(SepsisAfterSurgery(10 * SecondsPerDay - 1), SepsisRegistry()).None?
  {
    SampleSurgeryDays(10 * SecondsPerDay - 1);
    assert DayOffset(0, 10 * SecondsPerDay - 1) == 9;
  }

  /** The sample's only postoperative sepsis is its second diagnosis. */
  lemma SamplePostoperativeSepsis(stamp: int)
    ensures var e := SepsisAfterSurgery(stamp);
            Select(e.dxs, CodeSet(SepsisRegistry(), SEPTI2D), SecondaryNonPoa) == [e.dxs[1]]
  {
    var e := SepsisAfterSurgery(stamp);
    assert e.dxs[1..][1..] == [];
  }

  /** Past every exclusion, a single postoperative sepsis diagnosis is what PSI_13 reports. */
  lemma Psi13IncludesSingle(e: Encounter, reg: Registry, d: Diagnosis)
    requires && Elective(e) && Surgical(e, reg) && HasOrProcedure(e, reg)
             && e.principalDx !in CodeSet(reg, SEPTI2D) && e.principalDx !in CodeSet(reg, INFECID)
             && !HasDx(e.dxs, CodeSet(reg, SEPTI2D), SecondaryPoa)
             && !HasDx(e.dxs, CodeSet(reg, INFECID), SecondaryPoa)
             && LateSurgeryDays(e, reg).None?
    requires Select(e.dxs, CodeSet(reg, SEPTI2D), SecondaryNonPoa) == [d]
    ensures Psi13(e, reg) == Classification(Inclusion, [PostoperativeSepsis(d.code, d.poa)],
                                             map[SepsisMatches := Matches([(d.code, d.poa)])])
  {
    assert Select(e.dxs, CodeSet(reg, SEPTI2D), SecondaryPoa) == [];
    assert Select(e.dxs, CodeSet(reg, INFECID), SecondaryPoa) == [];
    assert Pairs([d]) == [(d.code, d.poa)];
  }

  /** The sample encounter clears the preamble, so its PSI_13 name runs the PSI_13 branch. */
  lemma SampleRunsPsi13(stamp: int)
    ensures Classify(SepsisAfterSurgery(stamp), IndicatorName(PSI13), SepsisRegistry(), false)
            == Psi13(SepsisAfterSurgery(stamp), SepsisRegistry())
  {
    SamplePassesPreamble(stamp);
    ClassifyRunsPsi13(SepsisAfterSurgery(stamp), SepsisRegistry(), false);
  }

  lemma SamplePassesPreamble(stamp: int)
    ensures Preamble(SepsisAfterSurgery(stamp), SepsisRegistry()).None?
  {
    var e := SepsisAfterSurgery(stamp);
    assert !Obstetric(e, SepsisRegistry()) && !Neonatal(e, SepsisRegistry());
  }

  lemma ClassifyRunsPsi13(e: Encounter, reg: Registry, validateTiming: bool)
    requires Preamble(e, reg).None?
    ensures Classify(e, IndicatorName(PSI13), reg, validateTiming) == Psi13(e, reg)
  {
    ClassifyRunsBranch(e, PSI13, reg, validateTiming);
  }

  /** The only OR procedure of the sample is its earliest one. */
  lemma SampleSurgeryDays(stamp: int)
    ensures var e := SepsisAfterSurgery(stamp);
            EarliestDated(e.procs, CodeSet(SepsisRegistry(), ORPROC)) == Some(e.procs[0])
  {
    var e := SepsisAfterSurgery(stamp);
    assert e.procs[1..] == [];
  }

  /** The sample encounter passes every PSI_13 exclusion before the timing test. */
  lemma SepsisAfterSurgeryPasses(stamp: int)
    ensures var e := SepsisAfterSurgery(stamp);
            var reg := SepsisRegistry();
            && Elective(e) && Surgical(e, reg) && HasOrProcedure(e, reg)
            && e.principalDx !in CodeSet(reg, SEPTI2D) && e.principalDx !in CodeSet(reg, INFECID)
            && !HasDx(e.dxs, CodeSet(reg, SEPTI2D), SecondaryPoa)
            && !HasDx(e.dxs, CodeSet(reg, INFECID), SecondaryPoa)
  {
    var e := SepsisAfterSurgery(stamp);
    assert e.procs[0] in e.procs;
    assert Select(e.dxs, CodeSet(SepsisRegistry(), SEPTI2D), SecondaryPoa) == [];
  }

  // ---------------------------------------------------------------------------
  // Length of stay

  /** With the corrected reading, a zero-day stay in the first column excludes from PSI_07 any
      encounter that passes its population test; the `or` fallback loses it and lets the
      encounter through to the numerator. */
  lemma ZeroDayStayExcludesPsi07(e: Encounter, reg: Registry)
    requires Surgical(e, reg)
    ensures Psi07(e.(lengthOfStay := LengthOfStay(Days(0), Absent)), reg) == Excluded(StayUnderTwoDays(0))
    ensures Psi07(e.(lengthOfStay := LengthOfStayAsWritten(Days(0), Absent)), reg).rationale
            != [StayUnderTwoDays(0)]
  {
    ZeroDayStayDropped();
  }
}
