/** Identifier minting: the slug `clean_uri_component` makes of free text, the
    `create_*_uri` functions that put a namespace and a kind tag in front of
    it, and `create_decision_uri`, which names a decision by a truncated MD5
    digest of its key pair. */
module Minting {
  import opened Wrappers
  import opened PyText
  import opened Cells
  import opened Rdf

  /** Characters `re.sub(r'[^\w\s-]', '', s)` keeps. */
  predicate IsKept(c: char) {
    IsWordChar(c) || IsSpace(c) || c == '-'
  }

  /** Characters a finished slug is made of: lowercase word characters and `-`. */
  predicate IsSlugChar(c: char) {
    (IsWordChar(c) || c == '-') && Lower(c) == c
  }

  predicate IsSlug(s: string) {
    forall i :: 0 <= i < |s| ==> IsSlugChar(s[i])
  }

  predicate AllKept(s: string) {
    forall i :: 0 <= i < |s| ==> IsKept(s[i])
  }

  predicate AllWordOrHyphen(s: string) {
    forall i :: 0 <= i < |s| ==> IsWordChar(s[i]) || s[i] == '-'
  }

  /** `re.sub(r'[^\w\s-]', '', s)`. */
  function DropDisallowed(s: string): (r: string)
    ensures AllKept(r)
  {
    if s == [] then [] else (if IsKept(s[0]) then [s[0]] else []) + DropDisallowed(s[1..])
  }

  /** The rest of `s` after its leading run of whitespace. */
  function SkipSpaces(s: string): (r: string)
    ensures |r| <= |s|
    ensures r == [] || !IsSpace(r[0])
  {
    if s != [] && IsSpace(s[0]) then SkipSpaces(s[1..]) else s
  }

  lemma {:induction false} SkipSpacesSuffix(s: string)
    ensures SkipSpaces(s) == s[|s| - |SkipSpaces(s)|..]
  {
    if s != [] && IsSpace(s[0]) {
      SkipSpacesSuffix(s[1..]);
      assert s[1..][|s| - 1 - |SkipSpaces(s)|..] == s[|s| - |SkipSpaces(s)|..];
    }
  }

  /** `re.sub(r'\s+', '_', s)`: every maximal run of whitespace becomes one `_`. */
  function UnderscoreSpaces(s: string): (r: string)
    ensures AllKept(s) ==> AllWordOrHyphen(r)
    decreases |s|
  {
    if s == [] then []
    else if IsSpace(s[0]) then
      var rest := SkipSpaces(s[1..]);
      assert AllKept(s) ==> AllKept(rest) by {
        SkipSpacesSuffix(s[1..]);
        if AllKept(s) {
          forall i | 0 <= i < |rest| ensures IsKept(rest[i]) {
            assert rest[i] == s[1..][|s[1..]| - |rest| + i];
          }
        }
      }
      "_" + UnderscoreSpaces(rest)
    else
      assert AllKept(s) ==> AllKept(s[1..]) by {
        if AllKept(s) {
          forall i | 0 <= i < |s[1..]| ensures IsKept(s[1..][i]) {
            assert s[1..][i] == s[i + 1];
          }
        }
      }
      [s[0]] + UnderscoreSpaces(s[1..])
  }

  /** The slug of a present value: strip, drop disallowed characters, turn
      whitespace runs into `_`, lowercase. */
  function Slugify(s: string): string {
    LowerText(UnderscoreSpaces(DropDisallowed(Strip(s))))
  }

  /** `clean_uri_component`: a missing value becomes `unknown`; anything else is
      slugged from its `str()`. Either way the result is lowercase and made of
      word characters and `-` only, so it holds no whitespace. */
  function CleanUriComponent(c: Cell): (r: string)
    ensures c.None? ==> r == "unknown"
    ensures IsSlug(r)
    ensures forall i :: 0 <= i < |r| ==> !IsSpace(r[i])
  {
    if c.None? then "unknown"
    else
      var u := UnderscoreSpaces(DropDisallowed(Strip(Show(c.value))));
      var r := Slugify(Show(c.value));
      assert forall i :: 0 <= i < |r| ==> IsSlugChar(r[i]) by {
        forall i | 0 <= i < |r| ensures IsSlugChar(r[i]) {
          LowerFacts(u[i]);
        }
      }
      r
  }

  /** The five kinds of entity that get a slug-based IRI. */
  datatype EntityKind = StudentKind | UniversityKind | AreaKind | CityKind | DepartmentKind

  /** The namespace and kind tag in front of each kind's slug. */
  function KindPrefix(k: EntityKind): string {
    match k
    case StudentKind => UNIV_NS + "student_"
    case UniversityKind => UNIV_NS + "university_"
    case AreaKind => EDU_NS + "area_"
    case CityKind => GEO_NS + "city_"
    case DepartmentKind => GEO_NS + "dept_"
  }

  function MintUri(k: EntityKind, c: Cell): Iri {
    KindPrefix(k) + CleanUriComponent(c)
  }

  /** `create_student_uri`. */
  function CreateStudentUri(studentId: Cell): Iri {
    MintUri(StudentKind, studentId)
  }

  /** `create_university_uri`. */
  function CreateUniversityUri(universityCode: Cell): Iri {
    MintUri(UniversityKind, universityCode)
  }

  /** `create_area_uri`. */
  function CreateAreaUri(areaName: Cell): Iri {
    MintUri(AreaKind, areaName)
  }

  /** `create_city_uri`. */
  function CreateCityUri(cityName: Cell): Iri {
    MintUri(CityKind, cityName)
  }

  /** `create_department_uri`. */
  function CreateDepartmentUri(deptName: Cell): Iri {
    MintUri(DepartmentKind, deptName)
  }

  predicate IsLowerHex(c: char) {
    IsAsciiDigit(c) || ('a' <= c <= 'f')
  }

  /** What `hashlib.md5(...).hexdigest()` returns: 32 lowercase hex digits. */
  type HexDigest = s: string | |s| == 32 && forall i :: 0 <= i < |s| ==> IsLowerHex(s[i])
    witness "00000000000000000000000000000000"

  /** The raw key `f"{student_id}_{university_code}"`, before any slugging. */
  function DecisionKey(studentId: Cell, universityCode: Cell): string {
    FieldText(studentId) + "_" + FieldText(universityCode)
  }

  /** `create_decision_uri`: `decision_` and the first 8 hex digits of the MD5
      digest (RFC 1321) of the UTF-8 encoded key; `md5` stands for that digest. */
  function CreateDecisionUri(md5: string -> HexDigest, studentId: Cell, universityCode: Cell): (u: Iri)
    ensures |u| == |BEHAVIOR_NS| + 17
    ensures u[..|BEHAVIOR_NS| + 9] == BEHAVIOR_NS + "decision_"
    ensures forall i :: |BEHAVIOR_NS| + 9 <= i < |u| ==> IsLowerHex(u[i])
  {
    BEHAVIOR_NS + "decision_" + md5(DecisionKey(studentId, universityCode))[..8]
  }
}
