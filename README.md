# PSI 05–15 classification engine, modelled in Dafny

This project models the rule engine of an AHRQ Patient Safety Indicator analyser. The analyser
reads one encounter at a time from a workbook row: MS-DRG, principal diagnosis, admission type,
DRG, admission date, length of stay, up to 30 diagnosis slots with present-on-admission (POA)
flags, and up to 20 procedure slots with dates and times. For each requested indicator, PSI_05
to PSI_15, it returns `Inclusion` or `Exclusion`, a rationale, and details that name the codes
which matched.

The model follows the engine's structure:

- `wrappers.dfy`: `Option`.
- `codes.dfy`: code cleaning (dots removed, upper-cased, stripped). It also has the code-list
  names (`CodeList`, named `"X_CODES"` by `ListName`) and the registry. The registry maps each
  list to its set of codes; a missing list reads as empty, as `code_sets.get(name, [])` does.
- `slots.dfy`: the numbered-slot scan that both extraction loops perform, as a method with a
  loop, proved against a recursive specification function.
- `records.dfy`: the record types, and how diagnoses and procedures are extracted from a raw row.
  It also has the POA validation, the length-of-stay reading, and the list queries the rules use:
  `Select` is the list comprehension, `HasDx` and `HasProcedure` are the `any(...)` tests.
- `timing.dfy`: day offsets, the earliest and latest dated procedure, the PSI_09
  treatment-before-surgery check and the PSI_14 reclosure timing check.
- `organs.dfy`: the PSI_15 organ analysis. It is a specification function, plus the loop
  methods that build it organ by organ, plus the organ-by-organ tests.
- `engine.dfy`: the common preamble and one function per indicator. `Classify` dispatches on
  the indicator name. `Evaluate` normalises a raw row and then classifies it.
- `engine_props.dfy`: properties across indicators, properties of the timing switch, and
  concrete encounters.

Timestamps are whole seconds. A day offset is the floor of a difference divided by 86400, as
`timedelta.days` computes it. A rationale is a sequence of tagged reasons that carry the codes
the message quotes. The details are a map from a `Field` (named by `FieldName` with the
analyser's key) to the matched pairs, codes or labels.

The analyser exists in two versions. `Enhanced_PSI_05_15.py` has PSI_05 to PSI_15.
`Enhanced_PSI_05_15_Cleaned.py` is a tidied copy of its helpers and of PSI_13 to PSI_15.
Where both versions hold the same logic, the table cites the cleaned one.

Behaviour of the analyser that may surprise, and that the model keeps:

- Day offsets are floored, not truncated toward zero. `FloorDiffersFromTruncation` shows an
  input where the two readings differ. `FloorAgreesAtThresholds` shows that they agree on every
  test the engine makes (at least 10 days; 1 to 30 days).
- A slot is kept when its raw cell is non-blank before the dots are removed. So a cell holding
  only "." gives a diagnosis with the empty code (`DotOnlyCodeKept`).
- An indicator name with no branch is not an error. It gives `Exclusion` with an empty
  rationale and no details (`Classify`).
- PSI_10 reports a missing diagnosis and a missing dialysis with one message, not two.
- In PSI_09 the timing check runs only when both a hemorrhage diagnosis and a treatment
  procedure match. In PSI_14 it runs only when the timing switch is on.
- PSI_05 and PSI_07 admit obstetric cases in their population tests. The common preamble has
  already excluded them, so that alternative never decides anything
  (`ObstetricAlternativeDead`, `ObstetricAlternativeShadowed`).

One behaviour is not kept: the length of stay is read the corrected way. The `or` fallback of
the analyser loses a 0-day stay; the as-written reading is modelled beside it and shown under
"## Findings".

## Model

| member | source | states |
|---|---|---|
| Codes.UpperChar | Enhanced_PSI_05_15_Cleaned.py:170 | a lower-case letter becomes the capital 32 code points below it, and every other character is left as it is; the result is never lower-case, and dots and whitespace keep their kind |
| Codes.RemoveDots | Enhanced_PSI_05_15_Cleaned.py:170 | no dot remains, every other character keeps its number of occurrences, the result is no longer than the input, and a dot-free code is unchanged |
| Codes.RemoveDotsAppend | Enhanced_PSI_05_15_Cleaned.py:170 | removing dots from a concatenation concatenates the removals, so together with RemoveDots' clauses the kept characters stay in their order ("E11.9" becomes "E119") |
| Codes.Upper | Enhanced_PSI_05_15_Cleaned.py:170 | character by character, the result is the upper-case of the input: same length, no lower-case letter, no dot introduced |
| Codes.StripStart | Enhanced_PSI_05_15_Cleaned.py:170 | the result is a suffix of the input, everything removed before it is whitespace, and it does not start with whitespace |
| Codes.StripEnd | Enhanced_PSI_05_15_Cleaned.py:170 | the result is a prefix of the input, everything removed after it is whitespace, and it does not end with whitespace |
| Codes.Strip | Enhanced_PSI_05_15_Cleaned.py:170 | the result is a slice of the input with only whitespace around it, and it neither starts nor ends with whitespace: the input minus its outer whitespace; no dot or lower-case letter is introduced |
| Codes.Clean | Enhanced_PSI_05_15_Cleaned.py:170 | a cleaned code has no dot, no lower-case letter and no surrounding whitespace, is no longer than the raw code, and a code that is already clean is returned unchanged |
| Codes.DotsCleanToEmpty | Enhanced_PSI_05_15_Cleaned.py:170 | a code made only of dots cleans to the empty code |
| Codes.CleanIdempotent | Enhanced_PSI_05_15_Cleaned.py:319 | cleaning a cleaned code changes nothing, so the principal diagnosis and the slot codes compare on one normal form |
| Slots.Scan | Enhanced_PSI_05_15_Cleaned.py:166-176 | the loop over slots 1..last collects exactly the present slots, in slot order |
| Slots.PresentShape | Enhanced_PSI_05_15_Cleaned.py:166-176 | at most one entry per slot, each entry is the one its slot holds, and slot numbers strictly increase |
| Slots.PresentCover | Enhanced_PSI_05_15_Cleaned.py:166-176 | every present slot in range is collected |
| Slots.PresentMembers | Enhanced_PSI_05_15_Cleaned.py:166-176 | an entry is collected if and only if some slot in 1..last holds it |
| Records.ParsePoa | Enhanced_PSI_05_15_Cleaned.py:171-174 | a flag other than blank comes from a cell that reads as that letter after strip and upper-case; any cell reading Y, N, U or W keeps that flag, and every other cell gives blank |
| Records.PoaRoundTrip | Enhanced_PSI_05_15_Cleaned.py:171-174 | every flag survives being written out and read back |
| Records.Diagnoses | Enhanced_PSI_05_15_Cleaned.py:163-177 | the diagnosis list: the entries of DX1..DX30 that are non-blank once stripped, in slot order (its properties are stated by the lemmas below) |
| Records.ExtractDiagnoses | Enhanced_PSI_05_15_Cleaned.py:163-177 | the extraction loop returns the diagnosis list of the row |
| Records.DiagnosesInSlots | Enhanced_PSI_05_15_Cleaned.py:165-176 | at most 30 diagnoses, each is what its slot holds, and slots strictly increase |
| Records.DiagnosesPositions | Enhanced_PSI_05_15_Cleaned.py:175 | a diagnosis is principal exactly when it comes from slot 1, and then it is the first entry; with DX1 blank there is no principal entry |
| Records.DiagnosesComplete | Enhanced_PSI_05_15_Cleaned.py:166-176 | a diagnosis is extracted if and only if its slot in 1..30 has a non-blank code cell, with the cleaned code, the validated POA flag and its position |
| Records.Procedures | Enhanced_PSI_05_15_Cleaned.py:179-200 | the procedure list: the entries of the 20 procedure slots whose code cell is non-blank once stripped, in slot order (its properties are stated by the lemmas below) |
| Records.ExtractProcedures | Enhanced_PSI_05_15_Cleaned.py:179-200 | the extraction loop returns the procedure list of the row |
| Records.ProceduresInSlots | Enhanced_PSI_05_15_Cleaned.py:181-199 | at most 20 procedures, each is what its slot holds, and slots strictly increase |
| Records.ProceduresCleanAndStamped | Enhanced_PSI_05_15_Cleaned.py:186-199 | every procedure code is clean, its timestamp is what its slot's date and time cells parse to, and a slot without a date cell gives no timestamp |
| Records.ProceduresComplete | Enhanced_PSI_05_15_Cleaned.py:181-199 | a procedure is extracted if and only if its slot in 1..20 has a non-blank code cell |
| Records.DotOnlyCodeKept | Enhanced_PSI_05_15_Cleaned.py:169-170 | a diagnosis cell holding only "." passes the blank test and gives a diagnosis with the empty code |
| Records.LengthOfStayAsWritten | Enhanced_PSI_05_15_Cleaned.py:327 | the analyser's `or` reading: a non-zero day count in the first column is kept, NaN there gives no stay, and a falsy first column (absent or 0) falls through to the second column's day count, if any |
| Records.LengthOfStay | Enhanced_PSI_05_15_Cleaned.py:327 | the corrected reading: the first column's day count whenever it has one (zero included); NaN in the first column gives no stay; an absent first column gives the second column's day count, if it has one |
| Records.ZeroDayStayDropped | Enhanced_PSI_05_15_Cleaned.py:327 | the `or` fallback turns a zero-day stay into no stay; the corrected reading keeps it |
| Records.Normalize | Enhanced_PSI_05_15_Cleaned.py:316-330 | the principal diagnosis is the cleaned PrincipalDX cell and the MS-DRG the stripped cell; age, ATYPE, DRG and admission date are copied; the lists are the extracted ones; the stay is the corrected reading (see Left out) |
| Records.Select | Enhanced_PSI_05_15.py:3-4 | the comprehension keeps exactly the diagnoses with a listed code that pass the filter, and it is non-empty exactly when the matching `any` test holds |
| Records.SelectAppend | Enhanced_PSI_05_15.py:3-4 | the comprehension over a concatenation is the concatenation of the comprehensions, so matches keep the order and the repeats of the diagnosis list |
| Records.SelectHead | Enhanced_PSI_05_15.py:3-9 | when some diagnosis matches, the first element of the comprehension, which the messages quote, is the first matching diagnosis of the list |
| Records.HasDx | Enhanced_PSI_05_15.py:3-4 | the `any(...)` test: some diagnosis has a listed code and passes the filter |
| Records.Pairs | Enhanced_PSI_05_15.py:3-4 | position by position, the reported pair is the (code, POA) of the selected diagnosis at that position |
| Records.ProcCodesIn | Enhanced_PSI_05_15.py:120 | the procedure-code comprehension holds exactly the listed codes of some procedure, is no longer than the procedure list, and is non-empty exactly when such a procedure exists |
| Records.ProcCodesAppend | Enhanced_PSI_05_15.py:120 | the procedure-code comprehension over a concatenation is the concatenation of the comprehensions: codes keep the order and the repeats of the procedure list |
| Records.ProcCodesHead | Enhanced_PSI_05_15.py:120 | when some procedure has a listed code, the first code of the comprehension is the code of the first such procedure |
| Records.HasProcedure | Enhanced_PSI_05_15.py:120 | the `any(...)` test: some procedure has a listed code |
| Timing.DayOffset | Enhanced_PSI_05_15_Cleaned.py:292 | the day offset is the number of whole days that fit in the difference, rounded down |
| Timing.DayOffsetMonotone | Enhanced_PSI_05_15_Cleaned.py:292 | a later timestamp is never fewer days away |
| Timing.AtLeastDays | Enhanced_PSI_05_15_Cleaned.py:410-411 | "at least n days" is "at least n*86400 seconds" |
| Timing.FloorDiffersFromTruncation | Enhanced_PSI_05_15_Cleaned.py:292 | one second earlier is day -1 when floored and day 0 when truncated |
| Timing.FloorAgreesAtThresholds | Enhanced_PSI_05_15_Cleaned.py:292-293 | floor and truncation agree on the tests "at least 10 days" and "1 to 30 days" |
| Timing.EarliestDated | Enhanced_PSI_05_15_Cleaned.py:221-222 | the minimum over dated procedures with a listed code exists exactly when one exists, is one of them, and is no later than any of them |
| Timing.EarliestIsFirst | Enhanced_PSI_05_15_Cleaned.py:222 | among procedures with equal timestamps the minimum is the first in list order, as Python's `min` keeps it |
| Timing.LatestDated | Enhanced_PSI_05_15_Cleaned.py:252 | the maximum over dated procedures with a listed code exists exactly when one exists, is one of them, and is no earlier than any of them |
| Timing.LatestBeforeEarliest | Enhanced_PSI_05_15_Cleaned.py:257-262 | the latest dated procedure of the first group is at or before the earliest of the second exactly when no dated procedure of the first group is later than any dated procedure of the second |
| Timing.EarliestBeforeEarliest | Enhanced_PSI_05_15_Cleaned.py:221-228 | the earliest dated procedure of the first group is at or before the earliest of the second exactly when some dated procedure of the first group is at or before every dated procedure of the second |
| Timing.EarliestAtLeastDays | Enhanced_PSI_05_15_Cleaned.py:406-411 | the earliest dated procedure is at least n days out exactly when every dated one is |
| Timing.EarliestHasEarliestOffset | Enhanced_PSI_05_15_Cleaned.py:404-411 | the day offset of the earliest dated procedure is the offset of a dated procedure, and no dated procedure is fewer days out |
| Timing.CheckTimingExclusions | Enhanced_PSI_05_15.py:781-802 | the result is "missing" exactly when an OR or a treatment procedure is absent; it is "treatment first", naming the earliest treatment, exactly when the earliest dated treatment is no later than the earliest dated OR procedure |
| Timing.CheckReclosureTiming | Enhanced_PSI_05_15_Cleaned.py:234-264 | no dated reclosure gives no exclusion; "before open" exactly when every dated reclosure is at or before every dated open surgery (some being dated); failing that, "before other" exactly when every dated reclosure is at or before every dated other surgery; it excludes exactly in those two cases |
| Organs.OrganListed | Enhanced_PSI_05_15_Cleaned.py:123-129 | every organ system is in the enumeration, at its index |
| Organs.OrgansEnumerated | Enhanced_PSI_05_15_Cleaned.py:123-129 | there are six organ systems, listed in declaration order, with distinct names |
| Organs.WindowInSeconds | Enhanced_PSI_05_15_Cleaned.py:292-293 | a repair is in the window exactly when it falls 1 to 30 whole days after the index procedure |
| Organs.RepairsInWindow | Enhanced_PSI_05_15_Cleaned.py:288-294 | the related procedures are exactly the dated repair procedures in the window, each with its day count between 1 and 30, and there are no more of them than procedures |
| Organs.RepairsAppend | Enhanced_PSI_05_15_Cleaned.py:288-294 | the window over a concatenation is the concatenation of the windows, so the related procedures are listed in the order of the procedure list, one entry per procedure |
| Organs.InjuryGroup | Enhanced_PSI_05_15_Cleaned.py:284-300 | filtering the organ's injuries by position and POA selects the same diagnoses as filtering the whole list |
| Organs.PoaGroupsComplementary | Enhanced_PSI_05_15_Cleaned.py:297-300 | a diagnosis is a non-POA injury exactly when it is not a POA injury |
| Organs.InjuryPartition | Enhanced_PSI_05_15_Cleaned.py:284-300 | an organ's injuries split into the non-POA and the POA group with no overlap, and together they make up all its injuries |
| Organs.AnalyzeOrgan | Enhanced_PSI_05_15_Cleaned.py:283-310 | one organ's entry: its injuries, the non-POA and the POA groups, the repairs in the window, and the flags read off them (its properties are stated by the lemmas below) |
| Organs.OrganMeetsNumerator | Enhanced_PSI_05_15_Cleaned.py:309 | an organ meets the numerator exactly when it has a secondary non-POA injury and a repair in the window |
| Organs.OrganPoaWithRepair | Enhanced_PSI_05_15_Cleaned.py:518-521 | an organ has a POA injury with a related procedure exactly when it has a principal or POA injury and a repair in the window |
| Organs.RepairFound | Enhanced_PSI_05_15_Cleaned.py:288-294 | some related procedure is found exactly when some procedure counts for the window |
| Organs.EntriesForShape | Enhanced_PSI_05_15_Cleaned.py:280-310 | the loop's result has exactly one entry per organ analysed, and that entry is the organ's analysis |
| Organs.EntriesStep | Enhanced_PSI_05_15_Cleaned.py:280-310 | analysing one more organ adds exactly that organ's entry |
| Organs.OrganAnalysisShape | Enhanced_PSI_05_15_Cleaned.py:266-312 | the analysis is empty exactly when no index procedure is dated; otherwise every organ has its entry, counted from the earliest dated index procedure |
| Organs.IndexStamp | Enhanced_PSI_05_15_Cleaned.py:270-277 | there is an index timestamp exactly when some ABDOMI15P procedure is dated, and it is no later than any of them |
| Organs.OrganAnalysis | Enhanced_PSI_05_15_Cleaned.py:266-312 | the result dictionary: empty without an index timestamp, otherwise the organs' entries recorded one after the other (its shape is stated by OrganAnalysisShape) |
| Organs.IndexIsEarliest | Enhanced_PSI_05_15_Cleaned.py:270-277 | the index timestamp is no later than any dated index procedure |
| Organs.CollectRepairs | Enhanced_PSI_05_15_Cleaned.py:287-294 | the inner loop returns the repairs in the window |
| Organs.AnalyzeOneOrgan | Enhanced_PSI_05_15_Cleaned.py:283-310 | one organ's entry equals its analysis |
| Organs.AnalyzeOrganInjuries | Enhanced_PSI_05_15_Cleaned.py:266-312 | the loop over organ systems returns the organ analysis |
| Organs.OrgansPassing | Enhanced_PSI_05_15_Cleaned.py:518-521 | the collected organs are exactly the listed ones whose entry passes the test, and they keep enumeration order |
| Organs.OrganNames | Enhanced_PSI_05_15_Cleaned.py:521 | each organ is reported by its name, position by position |
| Engine.PairsOfSelection | Enhanced_PSI_05_15.py:3-9 | the pairs reported for a selection are exactly the (code, POA) pairs of the diagnoses the selection admits |
| Engine.Preamble | Enhanced_PSI_05_15_Cleaned.py:339-355 | the common exclusions apply in order (age under 18, DRG 999, MDC 14, MDC 15), each exactly when no earlier one applies; a missing age or DRG passes |
| Engine.Psi05 | Enhanced_PSI_05_15.py:1116-1124 | included exactly when the case is surgical or obstetric and has a secondary non-POA retained-item diagnosis; a case that is neither is excluded as such, and one without the item is excluded for that; an Inclusion quotes the first match (SelectHead) and reports every match in diagnosis order (SelectAppend), under `matched_codes` only |
| Engine.Psi06 | Enhanced_PSI_05_15.py:13-42 | included exactly when the case is surgical or medical, has no principal pneumothorax, has no chest trauma anywhere, and has a secondary non-POA iatrogenic pneumothorax; each failing test gives its own reason (population, principal pneumothorax, chest trauma, none found) in that order; an Inclusion quotes the first match and reports every match in diagnosis order, under `matched_codes` only |
| Engine.Psi07 | Enhanced_PSI_05_15.py:44-74 | included exactly when the case is surgical, medical or obstetric, has no known stay under 2 days, has no cancer, and has a secondary non-POA central-line infection; each failing test gives its own reason in that order, the short stay quoting the stay; an Inclusion quotes the first match and reports every match in diagnosis order, under `matched_codes` only |
| Engine.Psi08 | Enhanced_PSI_05_15.py:76-110 | included exactly when the case is surgical or medical, has no prosthetic fracture, and has a secondary non-POA fracture; the population, prosthetic-fracture and no-fracture reasons each appear in their case; an Inclusion is the one FractureFound describes |
| Engine.FractureFound | Enhanced_PSI_05_15.py:97-108 | with some secondary non-POA fracture the case is included; the reason quotes the first hip fracture among the fractures or, without one, the first fracture; the type is "hip" exactly when there is a hip fracture; `matched_codes` lists every fracture in diagnosis order, and nothing else is reported |
| Engine.Psi09 | Enhanced_PSI_05_15.py:112-156 | included exactly when surgical, with an OR procedure, with no coagulation disorder, with both a hemorrhage diagnosis and a treatment, and with no treatment dated at or before the first OR procedure; the not-surgical, no-OR and coagulation reasons each appear in their case, the timing reason quotes the earliest dated treatment, and each of the three failure messages appears exactly in its case; an Inclusion reports the hemorrhage matches and treatment codes in list order and nothing else |
| Engine.HemorrhageFindings | Enhanced_PSI_05_15.py:131-156 | with both a hemorrhage and a treatment, a treatment no later than surgery excludes quoting the earliest treatment, otherwise the case is included with both lists in order; each one-sided or empty case has its own message |
| Engine.Psi10 | Enhanced_PSI_05_15.py:158-190 | included exactly when surgical, with no principal or POA cardiac or kidney condition, and with both a kidney-failure diagnosis and dialysis; the not-surgical reason, the cardiac or kidney reason quoting the first principal or POA diagnosis in the combined lists, and the missing-criteria reason each appear in their case; an Inclusion reports the kidney-failure matches and dialysis codes in list order and nothing else |
| Engine.MetCriteria | Enhanced_PSI_05_15.py:210-225 | each criterion is listed exactly when it holds, once; nothing else is listed; the respiratory criterion comes before the ventilation one |
| Engine.Psi11 | Enhanced_PSI_05_15.py:192-233 | a non-elective admission is excluded first, quoting ATYPE; then a non-surgical DRG; then a POA neurological condition, quoting the first one; then no criterion met; otherwise included, reporting exactly the criteria met |
| Engine.VteEvents | Enhanced_PSI_05_15.py:262-267 | DVT is listed exactly when there is a DVT match and PE exactly when there is a PE match, each once, nothing else, DVT first |
| Engine.Psi12 | Enhanced_PSI_05_15.py:235-274 | included exactly when surgical, with an OR procedure, with no secondary HIT diagnosis, and with a secondary non-POA DVT or PE; the not-surgical, no-OR, HIT and no-VTE reasons each appear in their case; an Inclusion names the event types and reports both match lists in diagnosis order and nothing else |
| Engine.SurgeryLate | Enhanced_PSI_05_15_Cleaned.py:404-413 | the late-surgery condition: an admission date, some dated OR procedure, and every dated OR procedure at least 10 whole days after admission |
| Engine.LateSurgeryDays | Enhanced_PSI_05_15_Cleaned.py:404-413 | a day count is reported exactly when the late-surgery condition holds; it is then the day offset of a dated OR procedure that no dated OR procedure undercuts, the earliest one, and it is at least 10 |
| Engine.Psi13 | Enhanced_PSI_05_15_Cleaned.py:358-426 | included exactly when elective, surgical, with an OR procedure, with no principal or POA sepsis or infection, without late surgery, and with a secondary non-POA sepsis; each exclusion gives its reason in the source's order, the POA ones quoting the first POA code, the late-surgery one the day count, and no sepsis its own reason; an Inclusion quotes the first postoperative sepsis and reports every one in diagnosis order, under `sepsis_matches` only |
| Engine.Psi14 | Enhanced_PSI_05_15_Cleaned.py:428-492 | included exactly when there is abdominopelvic surgery, no principal or POA wound disruption, no known stay under 2 days, no timing exclusion when the switch is on, a reclosure and a non-POA wound disruption; without abdominopelvic surgery or with a principal wound disruption the case is excluded for that, and past those tests the outcome is WoundExclusions'; the stratum is "open_approach" exactly when there is open surgery |
| Engine.WoundExclusions | Enhanced_PSI_05_15_Cleaned.py:447-492 | a POA wound disruption excludes quoting the first one; then a known stay under 2 days, quoting it; then, with the switch on, a reclosure-timing outcome that excludes; otherwise the numerator WoundFindings decides |
| Engine.WoundFindings | Enhanced_PSI_05_15_Cleaned.py:467-492 | included exactly when there is a reclosure and a non-POA wound disruption; each other combination has its own message; an Inclusion reports exactly the reclosure flag, every wound match in diagnosis order, and the stratum, open exactly when there is open surgery |
| Engine.Psi15 | Enhanced_PSI_05_15_Cleaned.py:494-543 | included exactly when surgical or medical, with a dated abdominopelvic procedure, with no organ having a POA injury and a repair in the window, and with some organ having a non-POA injury and a repair; the population, no-procedure and missing-dates reasons each appear in their case; with a dated index procedure the POA exclusion names exactly the POA organs in enumeration order, no qualifying organ gives its own reason, and an Inclusion names the qualifying organs in enumeration order and reports exactly their entries |
| Engine.OrganFindings | Enhanced_PSI_05_15_Cleaned.py:515-543 | the organ part of PSI_15 in terms of the encounter: the POA exclusion names exactly the organs with a POA injury and a repair, in enumeration order; without any qualifying organ the case is excluded for that; it includes exactly when the organ criteria hold, naming the qualifying organs and reporting their entries |
| Engine.OutcomeReadsEncounter | Enhanced_PSI_05_15_Cleaned.py:517-543 | each outcome the organ tests give on the analysis (POA exclusion, no organ, Inclusion) holds of the encounter with the same organs |
| Engine.QualifyingReadsEncounter | Enhanced_PSI_05_15_Cleaned.py:528-540 | the Inclusion read off the analysis names exactly the organs the encounter qualifies, with the same entries |
| Engine.PoaReadsEncounter | Enhanced_PSI_05_15_Cleaned.py:518-526 | the POA exclusion read off the analysis names exactly the organs the encounter has a POA injury and a repair for |
| Engine.OrgansWith | Enhanced_PSI_05_15_Cleaned.py:518-521 | the organs whose entry passes a test, all of them, in enumeration order |
| Engine.OrganOutcome | Enhanced_PSI_05_15_Cleaned.py:517-543 | a POA injury with a repair excludes, naming exactly those organs in enumeration order; otherwise it includes exactly when some organ meets the numerator, naming those organs in enumeration order with their entries, and without one it is excluded for that |
| Engine.PoaExclusion | Enhanced_PSI_05_15_Cleaned.py:518-526 | the POA exclusion names exactly the organs with a POA injury and a repair, in enumeration order |
| Engine.QualifyingOutcome | Enhanced_PSI_05_15_Cleaned.py:528-543 | with no POA organ, it includes exactly when some organ meets the numerator, naming those organs, and is otherwise excluded for having none |
| Engine.OrganInclusion | Enhanced_PSI_05_15_Cleaned.py:533-540 | the Inclusion's reason and `qualifying_organs` name, in enumeration order, exactly the organs that meet the numerator, and `organ_analysis` holds exactly their entries |
| Engine.OrganReadings | Enhanced_PSI_05_15_Cleaned.py:266-312 | with a dated index procedure the analysis is complete, and its two organ tests read the encounter directly |
| Engine.IndicatorNamed | Enhanced_PSI_05_15_Cleaned.py:358 | a name selects an indicator exactly when it is that indicator's name |
| Engine.Indicate | Enhanced_PSI_05_15.py:928-1124 | every indicator gives one reason, and details exactly on Inclusion |
| Engine.Classify | Enhanced_PSI_05_15_Cleaned.py:314-356 | a preamble exclusion wins; otherwise a known name runs its indicator, and an unknown one gives Exclusion with no rationale; Inclusion always has details |
| Engine.Evaluate | Enhanced_PSI_05_15_Cleaned.py:314-343 | a row with an age under 18 is excluded for age whatever the indicator, and an included row was asked for a known indicator; the stay is read the corrected way (see Left out) |
| EngineProperties.NamesSelectIndicators | Enhanced_PSI_05_15_Cleaned.py:358 | each indicator's name selects that indicator |
| EngineProperties.ClassifyRunsBranch | Enhanced_PSI_05_15_Cleaned.py:339-358 | past the preamble, an indicator's name runs that indicator's branch |
| EngineProperties.ClassifyShape | Enhanced_PSI_05_15.py:884-925 | a known name always gives one reason and details exactly on Inclusion; an unknown name past the preamble gives Exclusion with no rationale |
| EngineProperties.TimingSwitchOnlyPsi14 | Enhanced_PSI_05_15_Cleaned.py:461-465 | the timing switch changes the outcome of no indicator except PSI_14 |
| EngineProperties.TimingOnlyExcludes | Enhanced_PSI_05_15_Cleaned.py:461-465 | a PSI_14 inclusion with the timing check on is the same inclusion with it off |
| EngineProperties.ObstetricAlternativeDead | Enhanced_PSI_05_15.py:44-50 | an included PSI_05 encounter always has a surgical DRG, and an included PSI_07 one a surgical or medical DRG |
| EngineProperties.ObstetricAlternativeShadowed | Enhanced_PSI_05_15.py:1116-1124 | an obstetric retained-item case that the PSI_05 branch alone would include is excluded by the preamble as obstetric |
| EngineProperties.PreambleExcludesObstetric | Enhanced_PSI_05_15_Cleaned.py:339-351 | an adult case with an MDC 14 principal diagnosis and a DRG other than 999 is excluded as obstetric for every indicator name and timing switch |
| EngineProperties.Psi13ExclusionOrder | Enhanced_PSI_05_15_Cleaned.py:358-413 | each PSI_13 exclusion reason appears exactly when its test fails and every earlier test passes |
| EngineProperties.Psi13IncludesSingle | Enhanced_PSI_05_15_Cleaned.py:415-424 | past every exclusion, a single postoperative sepsis is reported as the inclusion's reason and its match |
| EngineProperties.SurgeryAfterTenDaysExcluded | Enhanced_PSI_05_15_Cleaned.py:404-411 | surgery 11 days after admission excludes PSI_13 as late surgery of 11 days |
| EngineProperties.SurgeryJustInsideTenDaysIncluded | Enhanced_PSI_05_15_Cleaned.py:404-424 | surgery one second short of 10 days counts as 9 days, so the postoperative sepsis is included |
| EngineProperties.ZeroDayStayExcludesPsi07 | Enhanced_PSI_05_15.py:53-56 | with the corrected length of stay a zero-day stay excludes a surgical PSI_07 case; the as-written reading does not |

## Left out

- The Streamlit interface, workbook upload, progress display, result tables, Excel export and
  debug output are I/O, and they are not modelled.
- Reading the appendix workbook into code lists is not modelled. The registry is a parameter,
  keyed by the list names the engine looks up. The lists that are read but never consulted
  (ACURF3D, IMMUNID, PLEURAD, MEDBLEEDD, NEURTRAD) have no entry.
- Date parsing (`pd.to_datetime` with errors coerced) is a parameter `DateParser` from text to an
  optional timestamp. An unparsable admission date (NaT) is modelled as no admission date, which
  the late-surgery test treats the same way.
- StampAt (and the `DateParser` parameter): an unparsable procedure date is modelled as no
  timestamp, so the procedure is undated. The analyser keeps the NaT value, which passes its
  `is not None` tests: such a procedure counts as dated, it keeps PSI_15 from excluding for "no
  dated index procedure", and because every comparison with NaT is false it can be what `min`
  returns in PSI_09 when it comes first. NaT timestamps are not modelled.
- Normalize, Evaluate: the length of stay is read the corrected way (`LengthOfStay`), not with
  the `or` fallback of Enhanced_PSI_05_15_Cleaned.py:327 (`LengthOfStayAsWritten`). With
  `length_of_stay` = 0 and no `Length_of_stay` column, the model excludes a surgical PSI_07 case
  and a PSI_14 case as a stay under 2 days, where the analyser does not (see "## Findings").
- Numeric cells (age, ATYPE, DRG, length of stay) are given as optional integers. A missing Age
  column, which reads as 0, is given as `Some(0)`. Float values and non-numeric text in these
  cells are not modelled.
- Case folding and whitespace are ASCII only. Python's `upper()` and `strip()` also handle
  non-ASCII letters and spaces.
- Rationale messages are tagged reasons carrying the codes, counts and lists they quote. The
  f-string text itself is not modelled.
- The organ analysis entries keep the injury and repair lists, the flags and the day counts.
  Repair timestamps are kept as seconds, not as datetime objects.
- The duplicated helper definitions in the two versions are modelled once.
- The analyser passes the admission date to `check_timing_exclusions`, which does not use it.
  The model leaves that parameter out.

## Findings

| source | as written | input that shows it | evidently intended | confidence | as-written member | corrected member |
|---|---|---|---|---|---|---|
| Enhanced_PSI_05_15_Cleaned.py:327 | `row.get("length_of_stay") or row.get("Length_of_stay")` treats a stay of 0 days as missing and falls through to the other column | `length_of_stay` = 0 and no `Length_of_stay` column: the stay reads as None, so PSI_07 and PSI_14 skip the "stay under 2 days" exclusion | the stay is the first column's value whenever that column exists, so a 0-day stay is excluded as under 2 days | not executed | Records.ZeroDayStayDropped | Records.LengthOfStay |
