/** The profile tab (src/tabs/ProfileTab.tsx): how the stored department and
    enrolment year are displayed, with fallbacks for missing values, and
    whether the optional "basic information" section is shown. */
module ProfileTab {
  import opened Results
  import opened Types
  import opened Text
  import ProfileCreatePage

  const MULTI_MAJOR_SUFFIX := "(다전공)"
  const DEPT_SEPARATOR := " · "
  const NO_DEPARTMENT := "무전공"
  const NO_YEAR := "무"

  /** The displayed form of the i-th comma-separated piece: trimmed, and
      marked as an additional major unless it is the first. */
  function DeptPart(piece: string, i: nat): string {
    if i > 0 then Trim(piece) + MULTI_MAJOR_SUFFIX else Trim(piece)
  }

  function DeptParts(pieces: seq<string>): (parts: seq<string>)
    ensures |parts| == |pieces|
    ensures forall i :: 0 <= i < |pieces| ==> parts[i] == DeptPart(pieces[i], i)
  {
    seq(|pieces|, i requires 0 <= i < |pieces| => DeptPart(pieces[i], i))
  }

  /** What `makeDeptString` produces: the displayed parts separated by ` · `
      between consecutive parts only. It starts with the first trimmed
      piece, ends with the last part, and a department without commas is
      shown as its trimmed text alone. */
  function DepartmentDisplay(department: string): (s: string)
    ensures var pieces := Split(department, ',');
      Trim(pieces[0]) <= s && EndsWith(s, DeptPart(pieces[|pieces| - 1], |pieces| - 1))
    ensures ',' !in department ==> s == Trim(department)
  {
    var pieces := Split(department, ',');
    DisplayEnds(pieces);
    if ',' !in department then DisplaySingle(department); Join(DeptParts(pieces), DEPT_SEPARATOR)
    else Join(DeptParts(pieces), DEPT_SEPARATOR)
  }

  lemma DisplayEnds(pieces: seq<string>)
    requires pieces != []
    ensures var s := Join(DeptParts(pieces), DEPT_SEPARATOR);
      Trim(pieces[0]) <= s && EndsWith(s, DeptPart(pieces[|pieces| - 1], |pieces| - 1))
  {
    assert DeptParts(pieces)[0] == Trim(pieces[0]);
  }

  lemma DisplaySingle(department: string)
    requires ',' !in department
    ensures Join(DeptParts(Split(department, ',')), DEPT_SEPARATOR) == Trim(department)
  {
    SplitWithoutSeparator(department, ',');
    var parts := DeptParts([department]);
    assert |parts| == 1 && parts[0] == Trim(department);
    assert parts == [Trim(department)];
    JoinCons(Trim(department), [], DEPT_SEPARATOR);
  }

  /** `makeDeptString`: one pass over the pieces, appending each part and a
      separator while more parts follow. */
  method MakeDeptString(department: string) returns (output: string)
    ensures output == DepartmentDisplay(department)
  {
    var pieces := Split(department, ',');
    ghost var parts := DeptParts(pieces);
    output := "";
    var i := 0;
    while i < |pieces|
      invariant 0 <= i <= |pieces|
      invariant output == JoinedSoFar(parts, i, DEPT_SEPARATOR)
    {
      ghost var before := output;
      output := output + Trim(pieces[i]);
      if i > 0 {
        output := output + MULTI_MAJOR_SUFFIX;
      }
      AppendPart(before, pieces, i, output);
      if i < |pieces| - 1 {
        output := output + DEPT_SEPARATOR;
      }
      JoinedStep(parts, i, DEPT_SEPARATOR);
      i := i + 1;
    }
    JoinedAll(parts, DEPT_SEPARATOR);
  }

  /** Appending the trimmed piece, and the suffix after the first, appends
      the displayed part. */
  lemma AppendPart(before: string, pieces: seq<string>, i: nat, output: string)
    requires i < |pieces|
    requires output == if i > 0 then before + Trim(pieces[i]) + MULTI_MAJOR_SUFFIX else before + Trim(pieces[i])
    ensures output == before + DeptParts(pieces)[i]
  {
  }

  /** After the last part no separator follows. */
  lemma JoinedAll(parts: seq<string>, sep: string)
    ensures JoinedSoFar(parts, |parts|, sep) == Join(parts, sep)
  {
    assert parts[..|parts|] == parts;
  }

  /** The loop's output after `i` parts: those parts joined, followed by a
      separator when more parts follow. */
  ghost function JoinedSoFar(parts: seq<string>, i: nat, sep: string): string
    requires i <= |parts|
  {
    if i == 0 then "" else Join(parts[..i], sep) + (if i < |parts| then sep else "")
  }

  lemma JoinedStep(parts: seq<string>, i: nat, sep: string)
    requires i < |parts|
    ensures JoinedSoFar(parts, i + 1, sep)
      == JoinedSoFar(parts, i, sep) + parts[i] + (if i < |parts| - 1 then sep else "")
  {
    if i == 0 {
      assert parts[..1] == [parts[0]];
      JoinCons(parts[0], [], sep);
    } else {
      assert parts[..i + 1] == parts[..i] + [parts[i]];
      JoinSnoc(parts[..i], parts[i], sep);
    }
  }

  /** `makeYearString`: the last two characters of the year in decimal, so
      the last two digits for a year of two or more digits. */
  function MakeYearString(enrollYear: int): (s: string)
    ensures enrollYear >= 10 ==> |s| == 2 && IsDigits(s) && DecimalValue(s) == enrollYear % 100
    ensures 1 <= |s| <= 2 && forall i :: 0 <= i < |s| ==> IsDigit(s[i]) || s[i] == '-'
  {
    var t := IntToString(enrollYear);
    if enrollYear >= 10 then LastTwoDigits(enrollYear); SignedDigits(enrollYear); LastTwo(t)
    else SignedDigits(enrollYear); LastTwo(t)
  }

  /** Every character of a printed integer is a digit or the minus sign. */
  lemma SignedDigits(n: int)
    ensures |IntToString(n)| >= 1
    ensures forall i :: 0 <= i < |IntToString(n)| ==> IsDigit(IntToString(n)[i]) || IntToString(n)[i] == '-'
    ensures var t := IntToString(n);
      forall i :: 0 <= i < |LastTwo(t)| ==> LastTwo(t)[i] == t[|t| - |LastTwo(t)| + i]
  {
    var t := IntToString(n);
    if n < 0 {
      var d := NatToDecimal(-n);
      forall i | 0 <= i < |t| ensures IsDigit(t[i]) || t[i] == '-' {
        if i > 0 { assert t[i] == d[i - 1]; }
      }
    }
  }

  lemma MakeYearStringExample()
    ensures MakeYearString(2019) == "19"
  {
    LastTwoDigits(2019);
    assert DigitChar(2019 / 10 % 10) == '1' && DigitChar(2019 % 10) == '9';
  }

  /** The department as the tab shows it, `무전공` when there is none. */
  function DepartmentText(department: Option<string>): (s: string)
    ensures !PresentText(department) ==> s == NO_DEPARTMENT
    ensures PresentText(department) && ',' !in department.value ==> s == Trim(department.value)
  {
    if PresentText(department) then DepartmentDisplay(department.value) else NO_DEPARTMENT
  }

  /** The year as the tab shows it: `무` exactly when the year is missing or
      zero, otherwise its last two characters. */
  function YearText(enrollYear: Option<int>): (s: string)
    ensures s == NO_YEAR <==> !PresentNumber(enrollYear)
    ensures PresentNumber(enrollYear) && enrollYear.value >= 10 ==>
      (|s| == 2 && IsDigits(s) && DecimalValue(s) == enrollYear.value % 100)
  {
    if PresentNumber(enrollYear) then
      var s := MakeYearString(enrollYear.value);
      assert s != NO_YEAR by {
        if |s| == 1 { assert IsDigit(s[0]) || s[0] == '-'; }
      }
      s
    else NO_YEAR
  }

  /** `optionalFieldExist`: a present list is truthy even when empty, a
      present text only when non-empty. */
  function OptionalFieldExist(profile: ApplicantProfile): (shown: bool)
    ensures !shown <==>
      (profile.positions == None && profile.stacks == None && profile.links == None
       && (profile.explanation == None || profile.explanation == Some("")))
  {
    profile.positions.Some? || PresentText(profile.explanation) || profile.stacks.Some? || profile.links.Some?
  }

  /** The texts the tab renders for a profile: the department line, the year
      and whether the optional section appears. */
  method Summary(profile: ApplicantProfile) returns (deptString: string, yearString: string, showOptional: bool)
    ensures deptString == DepartmentText(profile.department)
    ensures yearString == YearText(profile.enrollYear)
    ensures showOptional == OptionalFieldExist(profile)
  {
    if PresentText(profile.department) {
      deptString := MakeDeptString(profile.department.value);
    } else {
      deptString := NO_DEPARTMENT;
    }
    yearString := if PresentNumber(profile.enrollYear) then MakeYearString(profile.enrollYear.value) else NO_YEAR;
    showOptional := OptionalFieldExist(profile);
  }

  /** A department saved by the profile form from valid, comma-free majors
      is shown as its filled-in majors, trimmed, all but the first marked as
      additional majors. */
  lemma SavedDepartmentDisplay(majors: seq<string>)
    requires ProfileCreatePage.ValidateMajors(majors)
    requires forall i :: 0 <= i < |majors| ==> ',' !in majors[i]
    ensures DepartmentDisplay(ProfileCreatePage.DepartmentString(majors))
      == Join(DeptParts(ProfileCreatePage.NonBlank(majors)), DEPT_SEPARATOR)
    ensures Trim(majors[0]) <= DepartmentDisplay(ProfileCreatePage.DepartmentString(majors))
  {
    ProfileCreatePage.DepartmentRoundTrip(majors);
  }
}
