/** The encounter record: diagnosis and procedure entries, the raw row they are read from,
    and the list queries the indicator rules are built from.

    A raw row addresses its cells by slot: DX1..DX30 with POA1..POA30, and Proc1..Proc20 with
    Proc1_Date..Proc20_Date and Proc1_Time..Proc20_Time. A slot missing from a cell map stands
    for a missing column or an empty (NaN) cell. */
module Records {
  import opened Wrappers
  import opened Codes
  import opened Slots

  const MaxDiagnosisSlots := 30
  const MaxProcedureSlots := 20

  // ---------------------------------------------------------------------------
  // Entities

  /** Present-on-admission flag. Any raw value other than Y, N, U or W reads as Blank (""). */
  datatype Poa = Y | N | U | W | Blank

  /** The string the analyser stores for a flag. */
  function PoaText(p: Poa): string {
    match p
    case Y => "Y"
    case N => "N"
    case U => "U"
    case W => "W"
    case Blank => ""
  }

  /** "PRINCIPAL" belongs to slot DX1 only; every other slot is "SECONDARY". */
  datatype Position = Principal | Secondary

  /** One diagnosis: cleaned code, POA flag, position and slot number (1-based). */
  datatype Diagnosis = Diagnosis(code: string, poa: Poa, position: Position, slot: nat)

  /** One procedure: cleaned code, timestamp in seconds when the date parsed, slot number. */
  datatype Procedure = Procedure(code: string, stamp: Option<int>, slot: nat)

  /** The length-of-stay cell: no such column (None), an empty cell (NaN), or a day count. */
  datatype LosCell = Absent | NotANumber | Days(n: int)

  /** A row of the input workbook, cell by cell. Age, ATYPE and DRG are given as numbers
      (None for an empty cell), the admission date already parsed. */
  datatype RawRow = RawRow(
    age: Option<int>,
    msDrg: string,
    principalDx: string,
    atype: Option<int>,
    drg: Option<int>,
    admissionDate: Option<int>,
    losLower: LosCell,     // column "length_of_stay"
    losUpper: LosCell,     // column "Length_of_stay"
    dxCells: map<int, string>,
    poaCells: map<int, string>,
    procCells: map<int, string>,
    procDateCells: map<int, string>,
    procTimeCells: map<int, string>)

  /** The normalised encounter the indicator rules read. `principalDx` is the PrincipalDX
      column, cleaned; it is independent of which diagnosis sits in slot DX1. */
  datatype Encounter = Encounter(
    age: Option<int>,
    msDrg: string,
    principalDx: string,
    atype: Option<int>,
    drg: Option<int>,
    admissionDate: Option<int>,
    lengthOfStay: Option<int>,
    dxs: seq<Diagnosis>,
    procs: seq<Procedure>)

  /** The date parser (pandas `to_datetime` with errors coerced): a timestamp in seconds,
      or None for text it cannot read. */
  type DateParser = string -> Option<int>

  // ---------------------------------------------------------------------------
  // POA validation

  /** `str(poa).strip().upper()` kept only when it is one of Y, N, U, W; "" otherwise. */
  function ParsePoa(cell: Option<string>): (p: Poa)
    ensures p != Blank ==> cell.Some? && Upper(Strip(cell.value)) == PoaText(p)
    ensures cell.Some? && Upper(Strip(cell.value)) in {"Y", "N", "U", "W"} ==>
              PoaText(p) == Upper(Strip(cell.value))
  {
    if cell.None? then Blank
    else
      var t := Upper(Strip(cell.value));
      if t == "Y" then Y
      else if t == "N" then N
      else if t == "U" then U
      else if t == "W" then W
      else Blank
  }

  /** Reading back the text of a flag gives the flag again. */
  lemma PoaRoundTrip(p: Poa)
    ensures ParsePoa(Some(PoaText(p))) == p
  {
    match p
    case Blank =>
    case _ =>
      var c := PoaText(p)[0];
      assert PoaText(p) == [c];
      LetterKept(c);
  }

  /** A single upper-case, non-space character survives strip and upper-case. */
  lemma LetterKept(c: char)
    requires !IsSpace(c) && !IsLower(c)
    ensures Upper(Strip([c])) == [c]
  {
    assert IsStripped([c]) && NoLower([c]);
  }

  // ---------------------------------------------------------------------------
  // Diagnosis extraction

  function Cell(cells: map<int, string>, i: int): Option<string> {
    if i in cells then Some(cells[i]) else None
  }

  /** The entry slot `i` contributes: present when DX`i` is non-blank once stripped. */
  function DiagnosisAt(row: RawRow, i: nat): Option<Diagnosis> {
    if i in row.dxCells && Strip(row.dxCells[i]) != "" then
      Some(Diagnosis(Clean(row.dxCells[i]), ParsePoa(Cell(row.poaCells, i)),
                     if i == 1 then Principal else Secondary, i))
    else None
  }

  /** Slot by slot, what DX1..DX30 yield. */
  function DiagnosisSlots(row: RawRow): nat -> Option<Diagnosis> {
    (i: nat) => DiagnosisAt(row, i)
  }

  /** The diagnosis list of a row. */
  function Diagnoses(row: RawRow): seq<Diagnosis> {
    Present(DiagnosisSlots(row), 1, MaxDiagnosisSlots)
  }

  /** `extract_dx_codes_enhanced`: scan DX1..DX30, appending each populated slot. */
  method ExtractDiagnoses(row: RawRow) returns (dxs: seq<Diagnosis>)
    ensures dxs == Diagnoses(row)
  {
    dxs := Scan(DiagnosisSlots(row), MaxDiagnosisSlots);
  }

  /** Each slot's entry records that slot. */
  lemma DiagnosisSlotsNumbered(row: RawRow)
    ensures forall j :: DiagnosisSlots(row)(j).Some? ==> DiagnosisSlots(row)(j).value.slot == j
  {
  }

  /** The diagnosis list has at most 30 entries, in strictly increasing slots within 1..30,
      each being what its slot yields. */
  lemma DiagnosesInSlots(row: RawRow)
    ensures |Diagnoses(row)| <= MaxDiagnosisSlots
    ensures forall k :: 0 <= k < |Diagnoses(row)| ==>
              1 <= Diagnoses(row)[k].slot <= MaxDiagnosisSlots
              && DiagnosisAt(row, Diagnoses(row)[k].slot) == Some(Diagnoses(row)[k])
    ensures forall k, l :: 0 <= k < l < |Diagnoses(row)| ==>
              Diagnoses(row)[k].slot < Diagnoses(row)[l].slot
  {
    var at := DiagnosisSlots(row);
    var slot := (d: Diagnosis) => d.slot;
    DiagnosisSlotsNumbered(row);
    PresentShape(at, slot, 1, MaxDiagnosisSlots);
    var ds := Diagnoses(row);
    forall k | 0 <= k < |ds|
      ensures 1 <= ds[k].slot <= MaxDiagnosisSlots && DiagnosisAt(row, ds[k].slot) == Some(ds[k])
    {
      assert slot(ds[k]) == ds[k].slot;
      assert at(ds[k].slot) == Some(ds[k]);
    }
    forall k, l | 0 <= k < l < |ds|
      ensures ds[k].slot < ds[l].slot
    {
      assert slot(ds[k]) < slot(ds[l]);
    }
  }

  /** DX1 is missing or blank once stripped. */
  predicate Dx1Blank(row: RawRow) {
    1 !in row.dxCells || Strip(row.dxCells[1]) == ""
  }

  /** Only slot 1 is Principal, so the Principal entry, if any, comes first, and a blank DX1
      leaves no Principal entry at all. */
  lemma DiagnosesPositions(row: RawRow)
    ensures forall d :: d in Diagnoses(row) ==> (d.position == Principal <==> d.slot == 1)
    ensures forall d :: d in Diagnoses(row) && d.position == Principal ==> d == Diagnoses(row)[0]
    ensures Dx1Blank(row) ==>
              forall d :: d in Diagnoses(row) ==> d.position == Secondary
  {
    var ds := Diagnoses(row);
    forall k | 0 <= k < |ds|
      ensures ds[k].position == Principal <==> ds[k].slot == 1
      ensures ds[k].position == Principal ==> ds[k] == ds[0]
      ensures Dx1Blank(row) ==> ds[k].position == Secondary
    {
      EntryPosition(row, k);
    }
  }

  /** The position of the `k`-th entry, from the slot it came from. */
  lemma EntryPosition(row: RawRow, k: nat)
    requires k < |Diagnoses(row)|
    ensures Diagnoses(row)[k].position == Principal <==> Diagnoses(row)[k].slot == 1
    ensures Diagnoses(row)[k].position == Principal ==> k == 0
    ensures Dx1Blank(row) ==>
              Diagnoses(row)[k].position == Secondary
  {
    DiagnosesInSlots(row);
    var d := Diagnoses(row)[k];
    assert DiagnosisAt(row, d.slot) == Some(d);
    if k > 0 {
      assert Diagnoses(row)[0].slot < d.slot;
    }
  }

  /** A diagnosis is in the list exactly when some slot in 1..30 yields it. */
  lemma DiagnosesComplete(row: RawRow)
    ensures forall d :: d in Diagnoses(row) <==>
              exists j :: 1 <= j <= MaxDiagnosisSlots && DiagnosisAt(row, j) == Some(d)
  {
    var at := DiagnosisSlots(row);
    DiagnosisSlotsNumbered(row);
    PresentMembers(at, (d: Diagnosis) => d.slot, MaxDiagnosisSlots);
    forall d
      ensures d in Diagnoses(row) <==>
              exists j :: 1 <= j <= MaxDiagnosisSlots && DiagnosisAt(row, j) == Some(d)
    {
      if d in Diagnoses(row) {
        var j :| 1 <= j <= MaxDiagnosisSlots && at(j) == Some(d);
        assert DiagnosisAt(row, j) == Some(d);
      }
      if exists j :: 1 <= j <= MaxDiagnosisSlots && DiagnosisAt(row, j) == Some(d) {
        var j :| 1 <= j <= MaxDiagnosisSlots && DiagnosisAt(row, j) == Some(d);
        assert at(j) == Some(d);
      }
    }
  }

  // ---------------------------------------------------------------------------
  // Procedure extraction

  /** The timestamp of slot `i`: the date cell alone, or "date time" when a time cell is
      present, through the parser; None without a date cell. */
  function StampAt(row: RawRow, i: nat, parse: DateParser): Option<int> {
    if i in row.procDateCells then
      if i in row.procTimeCells then parse(row.procDateCells[i] + " " + row.procTimeCells[i])
      else parse(row.procDateCells[i])
    else None
  }

  /** The entry slot `i` contributes: present when Proc`i` is non-blank once stripped. */
  function ProcedureAt(row: RawRow, i: nat, parse: DateParser): Option<Procedure> {
    if i in row.procCells && Strip(row.procCells[i]) != "" then
      Some(Procedure(Clean(row.procCells[i]), StampAt(row, i, parse), i))
    else None
  }

  /** Slot by slot, what Proc1..Proc20 yield. */
  function ProcedureSlots(row: RawRow, parse: DateParser): nat -> Option<Procedure> {
    (i: nat) => ProcedureAt(row, i, parse)
  }

  /** The procedure list of a row. */
  function Procedures(row: RawRow, parse: DateParser): seq<Procedure> {
    Present(ProcedureSlots(row, parse), 1, MaxProcedureSlots)
  }

  /** `extract_proc_info_enhanced`: scan Proc1..Proc20, appending each populated slot. */
  method ExtractProcedures(row: RawRow, parse: DateParser) returns (procs: seq<Procedure>)
    ensures procs == Procedures(row, parse)
  {
    procs := Scan(ProcedureSlots(row, parse), MaxProcedureSlots);
  }

  /** Each slot's entry records that slot. */
  lemma ProcedureSlotsNumbered(row: RawRow, parse: DateParser)
    ensures forall j :: ProcedureSlots(row, parse)(j).Some? ==> ProcedureSlots(row, parse)(j).value.slot == j
  {
  }

  /** The procedure list has at most 20 entries, in strictly increasing slots within 1..20,
      each being what its slot yields. */
  lemma ProceduresInSlots(row: RawRow, parse: DateParser)
    ensures |Procedures(row, parse)| <= MaxProcedureSlots
    ensures forall k :: 0 <= k < |Procedures(row, parse)| ==>
              1 <= Procedures(row, parse)[k].slot <= MaxProcedureSlots
              && ProcedureAt(row, Procedures(row, parse)[k].slot, parse) == Some(Procedures(row, parse)[k])
    ensures forall k, l :: 0 <= k < l < |Procedures(row, parse)| ==>
              Procedures(row, parse)[k].slot < Procedures(row, parse)[l].slot
  {
    var at := ProcedureSlots(row, parse);
    var slot := (p: Procedure) => p.slot;
    ProcedureSlotsNumbered(row, parse);
    PresentShape(at, slot, 1, MaxProcedureSlots);
    var ps := Procedures(row, parse);
    forall k | 0 <= k < |ps|
      ensures 1 <= ps[k].slot <= MaxProcedureSlots && ProcedureAt(row, ps[k].slot, parse) == Some(ps[k])
    {
      assert slot(ps[k]) == ps[k].slot;
      assert at(ps[k].slot) == Some(ps[k]);
    }
    forall k, l | 0 <= k < l < |ps|
      ensures ps[k].slot < ps[l].slot
    {
      assert slot(ps[k]) < slot(ps[l]);
    }
  }

  /** Procedure codes come out clean and carry their slot's timestamp; a slot without a date
      cell gives no timestamp. */
  lemma ProceduresCleanAndStamped(row: RawRow, parse: DateParser)
    ensures forall p :: p in Procedures(row, parse) ==>
              IsClean(p.code) && p.stamp == StampAt(row, p.slot, parse)
              && (p.slot !in row.procDateCells ==> p.stamp == None)
  {
    ProceduresComplete(row, parse);
    forall p | p in Procedures(row, parse)
      ensures IsClean(p.code) && p.stamp == StampAt(row, p.slot, parse)
              && (p.slot !in row.procDateCells ==> p.stamp == None)
    {
      var j :| 1 <= j <= MaxProcedureSlots && ProcedureAt(row, j, parse) == Some(p);
    }
  }

  /** A procedure is in the list exactly when some slot in 1..20 yields it. */
  lemma ProceduresComplete(row: RawRow, parse: DateParser)
    ensures forall p :: p in Procedures(row, parse) <==>
              exists j :: 1 <= j <= MaxProcedureSlots && ProcedureAt(row, j, parse) == Some(p)
  {
    var at := ProcedureSlots(row, parse);
    ProcedureSlotsNumbered(row, parse);
    PresentMembers(at, (p: Procedure) => p.slot, MaxProcedureSlots);
    forall p
      ensures p in Procedures(row, parse) <==>
              exists j :: 1 <= j <= MaxProcedureSlots && ProcedureAt(row, j, parse) == Some(p)
    {
      if p in Procedures(row, parse) {
        var j :| 1 <= j <= MaxProcedureSlots && at(j) == Some(p);
        assert ProcedureAt(row, j, parse) == Some(p);
      }
      if exists j :: 1 <= j <= MaxProcedureSlots && ProcedureAt(row, j, parse) == Some(p) {
        var j :| 1 <= j <= MaxProcedureSlots && ProcedureAt(row, j, parse) == Some(p);
        assert at(j) == Some(p);
      }
    }
  }

  /** The slot test strips the raw cell before removing dots, so a code made only of dots
      is kept, with an empty cleaned code. */
  lemma DotOnlyCodeKept(row: RawRow)
    requires 2 in row.dxCells && row.dxCells[2] == "."
    requires 2 !in row.poaCells
    ensures DiagnosisAt(row, 2) == Some(Diagnosis("", Blank, Secondary, 2))
    ensures Diagnosis("", Blank, Secondary, 2) in Diagnoses(row)
  {
    assert Strip(".") == ".";
    DotsCleanToEmpty(".");
    assert ParsePoa(Cell(row.poaCells, 2)) == Blank;
    assert DiagnosisSlots(row)(2) == DiagnosisAt(row, 2);
    PresentCover(DiagnosisSlots(row), 1, 2, MaxDiagnosisSlots);
  }

  // ---------------------------------------------------------------------------
  // Length of stay

  /** Python truthiness of a length-of-stay cell: None and 0 are false, NaN is true. */
  predicate Truthy(c: LosCell) {
    c.NotANumber? || (c.Days? && c.n != 0)
  }

  /** `row.get("length_of_stay") or row.get("Length_of_stay")`, read through `pd.notna`:
      a zero-day stay in the first column falls through to the second. */
  function LengthOfStayAsWritten(lower: LosCell, upper: LosCell): (los: Option<int>)
    ensures lower.Days? && lower.n != 0 ==> los == Some(lower.n)
    ensures lower.NotANumber? ==> los.None?
    ensures !Truthy(lower) ==> los == (if upper.Days? then Some(upper.n) else None)
  {
    var c := if Truthy(lower) then lower else upper;
    if c.Days? then Some(c.n) else None
  }

  /** The first column when it exists, otherwise the second. */
  function LengthOfStay(lower: LosCell, upper: LosCell): (los: Option<int>)
    ensures lower.Days? ==> los == Some(lower.n)
    ensures lower.NotANumber? ==> los.None?
    ensures lower.Absent? ==> los == (if upper.Days? then Some(upper.n) else None)
  {
    var c := if lower.Absent? then upper else lower;
    if c.Days? then Some(c.n) else None
  }

  /** A zero-day stay is lost by the `or` fallback, and kept by the corrected reading. */
  lemma ZeroDayStayDropped()
    ensures LengthOfStayAsWritten(Days(0), Absent) == None
    ensures LengthOfStay(Days(0), Absent) == Some(0)
  {
  }

  // ---------------------------------------------------------------------------
  // Normalisation

  /** The encounter record the engine reads from one row. */
  function Normalize(row: RawRow, parse: DateParser): (e: Encounter)
    ensures e.principalDx == Clean(row.principalDx) && e.msDrg == Strip(row.msDrg)
    ensures e.age == row.age && e.atype == row.atype && e.drg == row.drg
    ensures e.admissionDate == row.admissionDate
    ensures IsClean(e.principalDx) && IsStripped(e.msDrg)
    ensures e.dxs == Diagnoses(row) && e.procs == Procedures(row, parse)
    ensures e.lengthOfStay == LengthOfStay(row.losLower, row.losUpper)
  {
    Encounter(row.age, Strip(row.msDrg), Clean(row.principalDx), row.atype, row.drg,
              row.admissionDate, LengthOfStay(row.losLower, row.losUpper),
              Diagnoses(row), Procedures(row, parse))
  }

  // ---------------------------------------------------------------------------
  // Queries over the lists

  /** The conditions the rules put on a diagnosis besides its code. */
  datatype DxFilter =
    | AnyDx            // any position, any POA
    | SecondaryDx      // pos == "SECONDARY"
    | SecondaryNonPoa  // pos == "SECONDARY" and poa != "Y"
    | SecondaryPoa     // pos == "SECONDARY" and poa == "Y"
    | NonPoaDx         // poa != "Y", any position
    | PoaDx            // poa == "Y", any position
    | PrincipalOrPoa   // pos == "PRINCIPAL" or poa == "Y"

  predicate Admits(f: DxFilter, d: Diagnosis) {
    match f
    case AnyDx => true
    case SecondaryDx => d.position == Secondary
    case SecondaryNonPoa => d.position == Secondary && d.poa != Y
    case SecondaryPoa => d.position == Secondary && d.poa == Y
    case NonPoaDx => d.poa != Y
    case PoaDx => d.poa == Y
    case PrincipalOrPoa => d.position == Principal || d.poa == Y
  }

  /** Some diagnosis has a code in `codes` and passes `f`. */
  predicate HasDx(dxs: seq<Diagnosis>, codes: set<string>, f: DxFilter) {
    exists d :: d in dxs && d.code in codes && Admits(f, d)
  }

  /** The comprehension `[d for d in dxs if d.code in codes and <f>]`, order kept. */
  function Select(dxs: seq<Diagnosis>, codes: set<string>, f: DxFilter): (r: seq<Diagnosis>)
    ensures |r| <= |dxs|
    ensures forall d :: d in r <==> d in dxs && d.code in codes && Admits(f, d)
    ensures |r| > 0 <==> HasDx(dxs, codes, f)
  {
    if dxs == [] then []
    else (if dxs[0].code in codes && Admits(f, dxs[0]) then [dxs[0]] else [])
         + Select(dxs[1..], codes, f)
  }

  /** The comprehension over a concatenation is the concatenation of the comprehensions, so
      the matches keep the order and the repeats of `dxs`. */
  lemma {:induction false} SelectAppend(a: seq<Diagnosis>, b: seq<Diagnosis>, codes: set<string>, f: DxFilter)
    ensures Select(a + b, codes, f) == Select(a, codes, f) + Select(b, codes, f)
  {
    if a == [] {
      assert a + b == b;
    } else {
      assert (a + b)[0] == a[0];
      assert (a + b)[1..] == a[1..] + b;
      var h := if a[0].code in codes && Admits(f, a[0]) then [a[0]] else [];
      var x, y := Select(a[1..], codes, f), Select(b, codes, f);
      assert Select(a + b, codes, f) == h + Select(a[1..] + b, codes, f);
      assert Select(a, codes, f) == h + x;
      SelectAppend(a[1..], b, codes, f);
      ConcatAssoc(h, x, y);
    }
  }

  /** `d` is the first diagnosis of `dxs` with a code in `codes` that passes `f`. */
  ghost predicate FirstMatch(dxs: seq<Diagnosis>, codes: set<string>, f: DxFilter, d: Diagnosis) {
    exists k :: && 0 <= k < |dxs| && dxs[k] == d && d.code in codes && Admits(f, d)
                && forall j :: 0 <= j < k ==> !(dxs[j].code in codes && Admits(f, dxs[j]))
  }

  /** `code` is the code of the first diagnosis of `dxs` with a code in `codes` that passes `f`. */
  ghost predicate FirstMatchCode(dxs: seq<Diagnosis>, codes: set<string>, f: DxFilter, code: string) {
    exists d :: FirstMatch(dxs, codes, f, d) && d.code == code
  }

  /** The match a rationale quotes, `matches[0]`, is the first matching diagnosis. */
  lemma {:induction false} SelectHead(dxs: seq<Diagnosis>, codes: set<string>, f: DxFilter)
    requires HasDx(dxs, codes, f)
    ensures |Select(dxs, codes, f)| > 0 && FirstMatch(dxs, codes, f, Select(dxs, codes, f)[0])
  {
    var r := Select(dxs, codes, f);
    if dxs[0].code in codes && Admits(f, dxs[0]) {
      assert r[0] == dxs[0];
    } else {
      var tail := dxs[1..];
      assert r == Select(tail, codes, f);
      var d :| d in dxs && d.code in codes && Admits(f, d);
      assert d in tail;
      SelectHead(tail, codes, f);
      FirstMatchShift(dxs, codes, f, r[0]);
    }
  }

  /** A first match after a non-matching head is the first match of the whole list. */
  lemma FirstMatchShift(dxs: seq<Diagnosis>, codes: set<string>, f: DxFilter, d: Diagnosis)
    requires |dxs| > 0 && !(dxs[0].code in codes && Admits(f, dxs[0]))
    requires FirstMatch(dxs[1..], codes, f, d)
    ensures FirstMatch(dxs, codes, f, d)
  {
    var tail := dxs[1..];
    var k :| && 0 <= k < |tail| && tail[k] == d && d.code in codes && Admits(f, d)
             && forall j :: 0 <= j < k ==> !(tail[j].code in codes && Admits(f, tail[j]));
    assert dxs[k + 1] == d;
    forall j | 0 <= j < k + 1
      ensures !(dxs[j].code in codes && Admits(f, dxs[j]))
    {
      if j > 0 {
        assert dxs[j] == tail[j - 1];
      }
    }
  }

  /** The (code, POA) pairs the rules report as matches. */
  function Pairs(ds: seq<Diagnosis>): (r: seq<(string, Poa)>)
    ensures |r| == |ds|
    ensures forall i :: 0 <= i < |ds| ==> r[i] == (ds[i].code, ds[i].poa)
    ensures forall d :: d in ds ==> (d.code, d.poa) in r
    ensures forall x :: x in r ==> exists d :: d in ds && x == (d.code, d.poa)
  {
    var r := seq(|ds|, i requires 0 <= i < |ds| => (ds[i].code, ds[i].poa));
    assert forall i :: 0 <= i < |ds| ==> r[i] == (ds[i].code, ds[i].poa);
    r
  }

  /** Some procedure has a code in `codes`. */
  predicate HasProcedure(procs: seq<Procedure>, codes: set<string>) {
    exists p :: p in procs && p.code in codes
  }

  /** The comprehension `[code for code, dt, seq in procs if code in codes]`. */
  function ProcCodesIn(procs: seq<Procedure>, codes: set<string>): (r: seq<string>)
    ensures |r| <= |procs|
    ensures forall c :: c in r <==> c in codes && exists p :: p in procs && p.code == c
    ensures |r| > 0 <==> HasProcedure(procs, codes)
  {
    if procs == [] then []
    else (if procs[0].code in codes then [procs[0].code] else []) + ProcCodesIn(procs[1..], codes)
  }

  /** The procedure-code comprehension over a concatenation is the concatenation of the
      comprehensions: the codes keep the order and the repeats of `procs`. */
  lemma {:induction false} ProcCodesAppend(a: seq<Procedure>, b: seq<Procedure>, codes: set<string>)
    ensures ProcCodesIn(a + b, codes) == ProcCodesIn(a, codes) + ProcCodesIn(b, codes)
  {
    if a == [] {
      assert a + b == b;
    } else {
      assert (a + b)[0] == a[0];
      assert (a + b)[1..] == a[1..] + b;
      var h := if a[0].code in codes then [a[0].code] else [];
      var x, y := ProcCodesIn(a[1..], codes), ProcCodesIn(b, codes);
      assert ProcCodesIn(a + b, codes) == h + ProcCodesIn(a[1..] + b, codes);
      assert ProcCodesIn(a, codes) == h + x;
      ProcCodesAppend(a[1..], b, codes);
      ConcatAssoc(h, x, y);
    }
  }

  /** `c` is the code of the first procedure of `procs` with a code in `codes`. */
  ghost predicate FirstProcCode(procs: seq<Procedure>, codes: set<string>, c: string) {
    exists k :: && 0 <= k < |procs| && procs[k].code == c && c in codes
                && forall j :: 0 <= j < k ==> procs[j].code !in codes
  }

  /** The first code of the comprehension is the first listed procedure's code. */
  lemma {:induction false} ProcCodesHead(procs: seq<Procedure>, codes: set<string>)
    requires HasProcedure(procs, codes)
    ensures |ProcCodesIn(procs, codes)| > 0 && FirstProcCode(procs, codes, ProcCodesIn(procs, codes)[0])
  {
    var r := ProcCodesIn(procs, codes);
    if procs[0].code in codes {
      assert r[0] == procs[0].code;
    } else {
      var tail := procs[1..];
      assert r == ProcCodesIn(tail, codes);
      var p :| p in procs && p.code in codes;
      assert p in tail;
      ProcCodesHead(tail, codes);
      FirstProcCodeShift(procs, codes, r[0]);
    }
  }

  /** A first listed code after an unlisted head is the first listed code of the whole list. */
  lemma FirstProcCodeShift(procs: seq<Procedure>, codes: set<string>, c: string)
    requires |procs| > 0 && procs[0].code !in codes
    requires FirstProcCode(procs[1..], codes, c)
    ensures FirstProcCode(procs, codes, c)
  {
    var tail := procs[1..];
    var k :| && 0 <= k < |tail| && tail[k].code == c && c in codes
             && forall j :: 0 <= j < k ==> tail[j].code !in codes;
    assert procs[k + 1].code == c;
    forall j | 0 <= j < k + 1
      ensures procs[j].code !in codes
    {
      if j > 0 {
        assert procs[j] == tail[j - 1];
      }
    }
  }
}
