/** Code normalisation and the code-set registry.

    Every diagnosis and procedure code the analyser reads is cleaned the same way
    (`str(x).replace(".", "").upper().strip()`): decimal points removed, letters
    upper-cased, surrounding whitespace stripped. The registry maps a code-set name
    such as "SEPTI2D_CODES" to its codes; a name that is missing reads as the empty set. */
module Codes {

  // ---------------------------------------------------------------------------
  // Characters

  /** Python's `str.isspace()` on the ASCII range: space, \t, \n, \v, \f, \r and \x1c..\x1f. */
  predicate IsSpace(c: char) {
    c == ' ' || c == '\t' || c == '\n' || c == '\r' || c == '\U{000B}' || c == '\U{000C}'
    || ('\U{001C}' <= c <= '\U{001F}')
  }

  predicate IsLower(c: char) {
    'a' <= c <= 'z'
  }

  /** Python's `str.upper()` on one ASCII character. */
  function UpperChar(c: char): (u: char)
    ensures !IsLower(u)
    ensures IsLower(c) ==> u as int == c as int - 32
    ensures IsLower(c) || u == c
    ensures u == '.' <==> c == '.'
    ensures IsSpace(u) <==> IsSpace(c)
  {
    if IsLower(c) then (c as int - 32) as char else c
  }

  // ---------------------------------------------------------------------------
  // The three steps of cleaning

  /** `s.replace(".", "")` */
  function RemoveDots(s: string): (r: string)
    ensures '.' !in r
    ensures |r| <= |s|
    ensures forall c :: c != '.' ==> multiset(r)[c] == multiset(s)[c]
    ensures '.' !in s ==> r == s
  {
    if s == [] then []
    else
      assert s == [s[0]] + s[1..];
      (if s[0] == '.' then [] else [s[0]]) + RemoveDots(s[1..])
  }

  /** Dot removal over a concatenation is the concatenation of the removals, so the kept
      characters stay in their order. */
  lemma {:induction false} RemoveDotsAppend(a: string, b: string)
    ensures RemoveDots(a + b) == RemoveDots(a) + RemoveDots(b)
  {
    if a == [] {
      assert a + b == b;
    } else {
      assert (a + b)[0] == a[0];
      assert (a + b)[1..] == a[1..] + b;
      var h := if a[0] == '.' then [] else [a[0]];
      var x, y := RemoveDots(a[1..]), RemoveDots(b);
      assert RemoveDots(a + b) == h + RemoveDots(a[1..] + b);
      assert RemoveDots(a) == h + x;
      RemoveDotsAppend(a[1..], b);
      ConcatAssoc(h, x, y);
    }
  }

  /** Concatenation is associative (stated apart, away from the functions' contracts). */
  lemma ConcatAssoc<T>(h: seq<T>, x: seq<T>, y: seq<T>)
    ensures h + (x + y) == (h + x) + y
  {
  }

  /** `s.upper()` */
  function Upper(s: string): (r: string)
    ensures |r| == |s|
    ensures forall i :: 0 <= i < |s| ==> r[i] == UpperChar(s[i])
    ensures NoLower(r)
    ensures '.' !in s ==> '.' !in r
    ensures NoLower(s) ==> r == s
  {
    var r := seq(|s|, i requires 0 <= i < |s| => UpperChar(s[i]));
    assert forall i :: 0 <= i < |s| ==> r[i] == UpperChar(s[i]);
    r
  }

  /** No lower-case letter. */
  predicate NoLower(s: string) {
    forall i :: 0 <= i < |s| ==> !IsLower(s[i])
  }

  /** `s.lstrip()` */
  function StripStart(s: string): (r: string)
    ensures |r| <= |s| && r == s[|s| - |r|..]
    ensures forall i :: 0 <= i < |s| - |r| ==> IsSpace(s[i])
    ensures r == [] || !IsSpace(r[0])
  {
    if s != [] && IsSpace(s[0]) then
      var r := StripStart(s[1..]);
      assert forall i :: 1 <= i < |s| - |r| ==> s[i] == s[1..][i - 1];
      r
    else s
  }

  /** `s.rstrip()` */
  function StripEnd(s: string): (r: string)
    ensures |r| <= |s| && r == s[..|r|]
    ensures forall i :: |r| <= i < |s| ==> IsSpace(s[i])
    ensures r == [] || !IsSpace(r[|r| - 1])
  {
    if s != [] && IsSpace(s[|s| - 1]) then StripEnd(s[..|s| - 1]) else s
  }

  /** No whitespace at either end. */
  predicate IsStripped(s: string) {
    s == [] || (!IsSpace(s[0]) && !IsSpace(s[|s| - 1]))
  }

  /** `r` is the slice of `s` starting at `a`, and everything of `s` around it is whitespace. */
  ghost predicate TrimOf(s: string, r: string, a: int) {
    && 0 <= a <= |s| - |r|
    && (forall i :: 0 <= i < |r| ==> r[i] == s[a + i])
    && (forall i :: 0 <= i < a ==> IsSpace(s[i]))
    && (forall i :: a + |r| <= i < |s| ==> IsSpace(s[i]))
  }

  /** `s.strip()`: `s` without the whitespace at either end. */
  function Strip(s: string): (r: string)
    ensures exists a :: TrimOf(s, r, a)
    ensures |r| <= |s|
    ensures IsStripped(r)
    ensures '.' !in s ==> '.' !in r
    ensures NoLower(s) ==> NoLower(r)
    ensures IsStripped(s) ==> r == s
  {
    StripTrims(s);
    StripEnd(StripStart(s))
  }

  /** Stripping the start and then the end removes exactly the whitespace around the text. */
  lemma StripTrims(s: string)
    ensures TrimOf(s, StripEnd(StripStart(s)), |s| - |StripStart(s)|)
  {
    var t := StripStart(s);
    var r := StripEnd(t);
    var a := |s| - |t|;
    assert t == s[a..] && r == t[..|r|];
    forall i | 0 <= i < |r|
      ensures r[i] == s[a + i]
    {
      assert r[i] == t[i] == s[a + i];
    }
    forall i | a + |r| <= i < |s|
      ensures IsSpace(s[i])
    {
      assert s[i] == t[i - a];
    }
    assert TrimOf(s, r, a);
  }

  // ---------------------------------------------------------------------------
  // Cleaning

  /** What a cleaned code looks like: no '.', no lower-case letter, stripped. */
  predicate IsClean(s: string) {
    && '.' !in s
    && NoLower(s)
    && IsStripped(s)
  }

  /** `str(x).replace(".", "").upper().strip()` */
  function Clean(s: string): (r: string)
    ensures IsClean(r)
    ensures |r| <= |s|
    ensures IsClean(s) ==> r == s
  {
    Strip(Upper(RemoveDots(s)))
  }

  /** A code made only of dots cleans to the empty code. */
  lemma DotsCleanToEmpty(s: string)
    requires forall i :: 0 <= i < |s| ==> s[i] == '.'
    ensures Clean(s) == ""
  {
    DotsRemoved(s);
  }

  /** Removing the dots from a run of dots leaves nothing. */
  lemma {:induction false} DotsRemoved(s: string)
    requires forall i :: 0 <= i < |s| ==> s[i] == '.'
    ensures RemoveDots(s) == ""
  {
    if s != [] {
      assert forall i :: 0 <= i < |s| - 1 ==> s[1..][i] == s[i + 1];
      DotsRemoved(s[1..]);
    }
  }

  /** A clean code is left as it is by cleaning, so cleaning twice is cleaning once. */
  lemma CleanIdempotent(s: string)
    ensures IsClean(s) ==> Clean(s) == s
    ensures Clean(Clean(s)) == Clean(s)
  {
  }

  // ---------------------------------------------------------------------------
  // The registry

  /** The code sets the engine consults; `ListName` gives each one's key in the registry. */
  datatype CodeList =
    | SURGI2R | MEDIC2R | MDC14PRINDX | MDC15PRINDX | ORPROC | FOREIID | IATROID | IATPTXD | CTRAUMD
    | IDTMC3D | CANCEID | FXID | HIPFXID | PROSFXID | POHMRI2D | HEMOTH2P | COAGDID | PHYSIDB
    | DIALYIP | CARDIID | CARDRID | SHOCKID | CRENLFD | ACURF2D | PR9672P | PR9671P | PR9604P
    | NEUROMD | MALHYPD | DEEPVIB | PULMOID | HITD | SEPTI2D | INFECID | RECLOIP | ABWALLCD
    | ABDOMIPOPEN | ABDOMIPOTHER | ABDOMI15P | SPLEEN15D | SPLEEN15P | ADRENAL15D | ADRENAL15P
    | VESSEL15D | VESSEL15P | DIAPHR15D | DIAPHR15P | GI15D | GI15P | GU15D | GU15P

  function ListName(l: CodeList): string {
    match l
    case SURGI2R => "SURGI2R_CODES"
    case MEDIC2R => "MEDIC2R_CODES"
    case MDC14PRINDX => "MDC14PRINDX_CODES"
    case MDC15PRINDX => "MDC15PRINDX_CODES"
    case ORPROC => "ORPROC_CODES"
    case FOREIID => "FOREIID_CODES"
    case IATROID => "IATROID_CODES"
    case IATPTXD => "IATPTXD_CODES"
    case CTRAUMD => "CTRAUMD_CODES"
    case IDTMC3D => "IDTMC3D_CODES"
    case CANCEID => "CANCEID_CODES"
    case FXID => "FXID_CODES"
    case HIPFXID => "HIPFXID_CODES"
    case PROSFXID => "PROSFXID_CODES"
    case POHMRI2D => "POHMRI2D_CODES"
    case HEMOTH2P => "HEMOTH2P_CODES"
    case COAGDID => "COAGDID_CODES"
    case PHYSIDB => "PHYSIDB_CODES"
    case DIALYIP => "DIALYIP_CODES"
    case CARDIID => "CARDIID_CODES"
    case CARDRID => "CARDRID_CODES"
    case SHOCKID => "SHOCKID_CODES"
    case CRENLFD => "CRENLFD_CODES"
    case ACURF2D => "ACURF2D_CODES"
    case PR9672P => "PR9672P_CODES"
    case PR9671P => "PR9671P_CODES"
    case PR9604P => "PR9604P_CODES"
    case NEUROMD => "NEUROMD_CODES"
    case MALHYPD => "MALHYPD_CODES"
    case DEEPVIB => "DEEPVIB_CODES"
    case PULMOID => "PULMOID_CODES"
    case HITD => "HITD_CODES"
    case SEPTI2D => "SEPTI2D_CODES"
    case INFECID => "INFECID_CODES"
    case RECLOIP => "RECLOIP_CODES"
    case ABWALLCD => "ABWALLCD_CODES"
    case ABDOMIPOPEN => "ABDOMIPOPEN_CODES"
    case ABDOMIPOTHER => "ABDOMIPOTHER_CODES"
    case ABDOMI15P => "ABDOMI15P_CODES"
    case SPLEEN15D => "SPLEEN15D_CODES"
    case SPLEEN15P => "SPLEEN15P_CODES"
    case ADRENAL15D => "ADRENAL15D_CODES"
    case ADRENAL15P => "ADRENAL15P_CODES"
    case VESSEL15D => "VESSEL15D_CODES"
    case VESSEL15P => "VESSEL15P_CODES"
    case DIAPHR15D => "DIAPHR15D_CODES"
    case DIAPHR15P => "DIAPHR15P_CODES"
    case GI15D => "GI15D_CODES"
    case GI15P => "GI15P_CODES"
    case GU15D => "GU15D_CODES"
    case GU15P => "GU15P_CODES"
  }

  /** Code set to codes, as built from the appendix workbook. A code set the workbook lacks
      is missing from the map. */
  type Registry = map<CodeList, set<string>>

  /** `code_sets.get(name, [])`: a missing code set is an always-false membership test. */
  function CodeSet(reg: Registry, l: CodeList): set<string> {
    if l in reg then reg[l] else {}
  }
}
