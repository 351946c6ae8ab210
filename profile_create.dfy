/** The applicant-profile form (src/pages/ProfileCreatePage.tsx): the
    two-digit student id and its conversion to an enrolment year, the majors
    list, the résumé rule, the form check and the body sent on submit. */
module ProfileCreatePage {
  import opened Results
  import opened Types
  import opened Text
  import opened Lists

  const MAX_MAJORS := 7
  const MAX_RESUME_SIZE := 5 * 1024 * 1024
  const PDF_TYPE := "application/pdf"
  const CV_PATH_PREFIX := "static/private/CV/"

  const STUDENT_ID_ERROR := "두 자리 수 숫자로 작성해주세요. (e.g. 25)"
  const MAJOR_ERROR := "주전공은 필수 작성이며, 다전공은 총 6개 이하로 중복되지 않게 입력해주세요."
  const NOT_PDF_ERROR := "PDF 파일만 업로드 가능합니다."
  const TOO_LARGE_ERROR := "5MB 이하의 PDF 파일을 올려주세요."

  // ---------------------------------------------------------------- student id

  /** `reverseStudentId`: the last two characters of the year in decimal.
      For a year of two or more digits these are its tens and units. */
  function ReverseStudentId(year: int): (id: string)
    ensures year >= 10 ==> |id| == 2 && IsDigits(id) && DecimalValue(id) == year % 100
  {
    if year >= 10 then LastTwoDigits(year); LastTwo(IntToString(year))
    else LastTwo(IntToString(year))
  }

  /** The regular expression `^\d{lo,hi}$`. Whatever it admits, when at
      least one digit is required, `parseInt` reads in full. */
  function MatchesDigits(value: string, lo: nat, hi: nat): (ok: bool)
    ensures ok && lo >= 1 ==> IsDigits(value) && ParseInt(value) == Some(DecimalValue(value))
  {
    lo <= |value| <= hi && IsDigits(value)
  }

  /** `validateStudentId`: whether the value is valid, and the message the
      student-id error gets. Valid means exactly two ASCII digits; an empty
      value is invalid but clears the message. */
  function ValidateStudentId(value: string): (r: (bool, string))
    ensures r.0 <==> |value| == 2 && '0' <= value[0] <= '9' && '0' <= value[1] <= '9'
    ensures r.1 == "" <==> r.0 || value == ""
    ensures r.1 != "" ==> r.1 == STUDENT_ID_ERROR
  {
    if value == "" then (false, "")
    else if !MatchesDigits(value, 2, 2) then (false, STUDENT_ID_ERROR)
    else (true, "")
  }

  /** The century rule of `convertStudentId`: 0..24 is in the 2000s, any
      other number in the 1900s. */
  function Century(n: int): (year: int)
    ensures year == n + 1900 || year == n + 2000
    ensures 0 <= n < 100 ==> 1925 <= year <= 2024
  {
    if 0 <= n <= 24 then 2000 + n else 1900 + n
  }

  /** Two digits put in their century give a year from 1925 to 2024 that
      ends in those digits. */
  lemma CenturyOfTwoDigits(n: int)
    requires 0 <= n < 100
    ensures 1925 <= Century(n) <= 2024 && Century(n) % 100 == n
  {
    if n <= 24 {
      assert Century(n) == 2000 + n;
    } else {
      assert Century(n) == 1900 + n;
    }
  }

  /** Two digits read as a number below 100. */
  lemma TwoDigitsBelowHundred(s: string)
    requires MatchesDigits(s, 2, 2)
    ensures DecimalValue(s) < 100 && ParseInt(s) == Some(DecimalValue(s) as int)
  {
    assert s == [s[0], s[1]];
    DecimalValueOfTwo(s[0], s[1]);
  }

  /** `convertStudentId`: `parseInt` the value and put it in its century;
      `None` stands for `NaN`. A valid two-digit id becomes a year from 1925
      to 2024 ending in those two digits. */
  function ConvertStudentId(value: string): (year: Option<int>)
    ensures year.None? <==> ParseInt(value).None?
    ensures MatchesDigits(value, 2, 2) ==>
      (year.Some? && 1925 <= year.value <= 2024 && year.value % 100 == DecimalValue(value))
  {
    if MatchesDigits(value, 2, 2) then
      TwoDigitsBelowHundred(value);
      CenturyOfTwoDigits(DecimalValue(value));
      Some(Century(DecimalValue(value)))
    else
      match ParseInt(value)
      case None => None
      case Some(n) => Some(Century(n))
  }

  /** A valid id converts to the century of its two digits. */
  lemma ConvertTwoDigits(value: string)
    requires MatchesDigits(value, 2, 2)
    ensures ConvertStudentId(value) == Some(Century(DecimalValue(value)))
  {
  }

  /** A year is the century of its last two digits exactly in 1925..2024. */
  lemma CenturyOfLastTwo(year: int)
    ensures Century(year % 100) == year <==> 1925 <= year <= 2024
    ensures 1900 <= year <= 1924 ==> Century(year % 100) == year + 100
  {
    var d := year % 100;
    CenturyOfTwoDigits(d);
    if 1900 <= year <= 1924 {
      assert d == year - 1900;
    } else if 1925 <= year <= 1999 {
      assert d == year - 1900;
    } else if 2000 <= year <= 2024 {
      assert d == year - 2000;
    }
  }

  /** Edit mode loads the year with `reverseStudentId` and saves it with
      `convertStudentId`: the year survives exactly when it lies in 1925..2024. */
  lemma StudentIdRoundTrip(year: int)
    ensures ConvertStudentId(ReverseStudentId(year)) == Some(year) <==> 1925 <= year <= 2024
  {
    if year >= 10 {
      ReloadedYear(year);
      CenturyOfLastTwo(year);
    } else {
      ShortYearMoves(year);
    }
  }

  /** A year below 10 (one digit, or negative) never survives the round
      trip: what is saved is a year of the 1800s, 1900s or 2000s. */
  lemma ShortYearMoves(year: int)
    requires year < 10
    ensures ConvertStudentId(ReverseStudentId(year)) != Some(year)
  {
    var id := ReverseStudentId(year);
    if year <= -10 {
      var n := NatToDecimal(-year);
      assert n == NatToDecimal(-year / 10) + [DigitChar(-year % 10)];
      assert id == n[|n| - 2..];
      assert MatchesDigits(id, 2, 2);
    } else if year < 0 {
      var d := DigitChar(-year);
      assert NatToDecimal(-year) == [d];
      assert IntToString(year) == ['-', d];
      assert id == ['-', d];
      NegativeDigit(d);
    } else {
      assert id == [DigitChar(year)];
      assert ParseInt(id) == Some(year);
    }
  }

  /** A year from 1900 to 1924 loads and saves as a year a century later. */
  lemma StudentIdCentury(year: int)
    requires 1900 <= year <= 1924
    ensures ConvertStudentId(ReverseStudentId(year)) == Some(year + 100)
  {
    OldCenturyId(ReverseStudentId(year), year);
  }

  /** Two digits that are a year of 1900..1924 modulo 100 are saved as
      that year a century later. */
  lemma OldCenturyId(id: string, year: int)
    requires 1900 <= year <= 1924 && |id| == 2 && IsDigits(id) && DecimalValue(id) == year % 100
    ensures ConvertStudentId(id) == Some(year + 100)
  {
    OldYearDigits(year);
    ConvertTwoDigits(id);
  }

  /** The last two digits of a year of 1900..1924 are its distance from 1900,
      which the century rule puts in the 2000s. */
  lemma OldYearDigits(year: int)
    requires 1900 <= year <= 1924
    ensures year % 100 == year - 1900 && Century(year - 1900) == year + 100
  {
  }

  /** The hint's example id "25" is saved as 1925. */
  lemma StudentIdExample()
    ensures ConvertStudentId("25") == Some(1925)
  {
    DecimalValueOfTwo('2', '5');
    assert "25" == ['2', '5'];
    ConvertTwoDigits("25");
  }

  /** A year of two or more digits loads and saves as the century of its
      last two digits. */
  lemma ReloadedYear(year: int)
    requires year >= 10
    ensures ConvertStudentId(ReverseStudentId(year)) == Some(Century(year % 100))
  {
    ConvertTwoDigits(ReverseStudentId(year));
  }


  /** `parseInt` reads a minus sign and one digit as the negated digit. */
  lemma NegativeDigit(d: char)
    requires IsDigit(d)
    ensures ParseInt(['-', d]) == Some(-(DigitValue(d) as int))
  {
    var s := ['-', d];
    assert !IsSpace(s[0]) && TrimStart(s) == s;
    assert Unsigned(s) == [d] && DigitPrefix([d]) == [d];
    assert DecimalValue([d]) == DigitValue(d) by {
      assert [d][..0] == [];
    }
  }

  // ---------------------------------------------------------------- random part of the résumé path

  const RANDOM_CHARS := "ABCDEFGHIJKLMNOPQRSTUVWXYZabcdefghijklmnopqrstuvwxyz0123456789"

  /** `chars.charAt(k)`: the character at `k`, or the empty string past the end. */
  function CharAt(s: string, k: nat): (r: string)
    ensures k < |s| ==> r == [s[k]]
    ensures k >= |s| <==> r == ""
  {
    if k < |s| then [s[k]] else ""
  }

  /** `generateRandomString`, with the index each iteration draws from
      `Math.random` given in `picks`. Indices inside the alphabet, which is
      all `Math.floor(Math.random() * 62)` can produce, give a string of the
      requested length drawn from the alphabet. */
  method GenerateRandomString(length: nat, picks: seq<nat>) returns (result: string)
    requires |picks| == length
    ensures (forall i :: 0 <= i < length ==> picks[i] < |RANDOM_CHARS|) ==>
      (|result| == length && forall i :: 0 <= i < length ==> result[i] == RANDOM_CHARS[picks[i]])
    ensures |result| <= length
  {
    result := "";
    var i := 0;
    while i < length
      invariant 0 <= i <= length && |result| <= i
      invariant (forall j :: 0 <= j < i ==> picks[j] < |RANDOM_CHARS|) ==>
        (|result| == i && forall j :: 0 <= j < i ==> result[j] == RANDOM_CHARS[picks[j]])
    {
      result := result + CharAt(RANDOM_CHARS, picks[i]);
      i := i + 1;
    }
  }

  // ---------------------------------------------------------------- date for the résumé path

  /** Four digits, then two, then two: each part reads back from its slice. */
  lemma EightDigits(a: string, b: string, c: string)
    requires |a| == 4 && |b| == 2 && |c| == 2 && IsDigits(a) && IsDigits(b) && IsDigits(c)
    ensures var s := a + b + c;
      |s| == 8 && IsDigits(s) && s[..4] == a && s[4..6] == b && s[6..] == c
  {
    var s := a + b + c;
    assert forall i :: 0 <= i < 8 ==> s[i] == if i < 4 then a[i] else if i < 6 then b[i - 4] else c[i - 6];
  }

  /** `formatDate` on the calendar fields it reads (`getFullYear`, the
      zero-based `getMonth`, `getDate`): YYYYMMDD, which reads back as the
      year, the one-based month and the day. */
  function FormatDate(year: int, monthIndex: int, day: int): (s: string)
    ensures 1000 <= year <= 9999 && 0 <= monthIndex < 12 && 1 <= day <= 31 ==>
      (|s| == 8 && IsDigits(s)
       && DecimalValue(s[..4]) == year && DecimalValue(s[4..6]) == monthIndex + 1 && DecimalValue(s[6..]) == day)
  {
    var y := IntToString(year);
    var m := PadStart2(IntToString(monthIndex + 1));
    var d := PadStart2(IntToString(day));
    if 1000 <= year <= 9999 && 0 <= monthIndex < 12 && 1 <= day <= 31 then
      DateParts(year, monthIndex + 1, day);
      EightDigits(y, m, d);
      y + m + d
    else y + m + d
  }

  lemma DateParts(year: nat, month: nat, day: nat)
    requires 1000 <= year <= 9999 && month < 100 && day < 100
    ensures var y := IntToString(year);
      |y| == 4 && IsDigits(y) && DecimalValue(y) == year
    ensures var m := PadStart2(IntToString(month));
      |m| == 2 && IsDigits(m) && DecimalValue(m) == month
    ensures var d := PadStart2(IntToString(day));
      |d| == 2 && IsDigits(d) && DecimalValue(d) == day
  {
    FourDigits(year);
    PaddedTwoDigits(month);
    PaddedTwoDigits(day);
  }

  // ---------------------------------------------------------------- majors

  /** `majors.filter((m) => m.trim() !== '')`. */
  function NonBlank(majors: seq<string>): (r: seq<string>)
    ensures |r| <= |majors|
    ensures forall x :: x in r ==> x in majors && Trim(x) != ""
    ensures majors != [] && Trim(majors[0]) != "" ==> r != [] && r[0] == majors[0]
  {
    if majors == [] then []
    else
      var rest := NonBlank(majors[1..]);
      assert forall x :: x in majors[1..] ==> x in majors;
      if Trim(majors[0]) != "" then [majors[0]] + rest else rest
  }

  /** The filter loses no filled-in major: each one that is not blank is
      kept as often as it occurs, and so a blank-free list is kept whole. */
  lemma {:induction false} NonBlankKeepsFilled(majors: seq<string>)
    ensures forall x :: Trim(x) != "" ==> multiset(NonBlank(majors))[x] == multiset(majors)[x]
    ensures forall x :: x in majors && Trim(x) != "" ==> x in NonBlank(majors)
  {
    if majors != [] {
      NonBlankKeepsFilled(majors[1..]);
      assert majors == [majors[0]] + majors[1..];
    }
  }

  /** The filter keeps list order: filtering a concatenation filters each
      part and concatenates the results, and a single major is kept exactly
      when it is not blank. Together these fix every kept major's position. */
  lemma {:induction false} NonBlankAppend(a: seq<string>, b: seq<string>)
    ensures NonBlank(a + b) == NonBlank(a) + NonBlank(b)
  {
    if a == [] {
      assert a + b == b;
    } else {
      NonBlankAppend(a[1..], b);
      NonBlankAppendStep(a, b);
    }
  }

  lemma NonBlankAppendStep(a: seq<string>, b: seq<string>)
    requires a != [] && NonBlank(a[1..] + b) == NonBlank(a[1..]) + NonBlank(b)
    ensures NonBlank(a + b) == NonBlank(a) + NonBlank(b)
  {
    var keep := if Trim(a[0]) != "" then [a[0]] else [];
    AppendHeadTail(a, b);
    NonBlankCons(a + b);
    NonBlankCons(a);
    Regroup(keep, NonBlank(a[1..]), NonBlank(b));
  }


  /** One step of the filter: the head is kept exactly when it is not blank. */
  lemma NonBlankCons(xs: seq<string>)
    requires xs != []
    ensures NonBlank(xs) == (if Trim(xs[0]) != "" then [xs[0]] else []) + NonBlank(xs[1..])
  {
  }

  lemma NonBlankSingle(x: string)
    ensures NonBlank([x]) == if Trim(x) != "" then [x] else []
  {
    assert [x][1..] == [];
  }

  function Trimmed(xs: seq<string>): (r: seq<string>)
    ensures |r| == |xs| && forall i :: 0 <= i < |xs| ==> r[i] == Trim(xs[i])
  {
    if xs == [] then [] else [Trim(xs[0])] + Trimmed(xs[1..])
  }

  /** `validateMajors`: the main major is present and not blank, and no two
      filled-in majors are equal after trimming. */
  function ValidateMajors(majors: seq<string>): (ok: bool)
    ensures ok <==> majors != [] && !IsBlank(majors[0]) && Distinct(Trimmed(NonBlank(majors)))
  {
    if majors == [] || majors[0] == "" || Trim(majors[0]) == "" then false
    else
      var filled := NonBlank(majors);
      DistinctIffElementsSize(Trimmed(filled));
      |Elements(Trimmed(filled))| == |filled|
  }

  /** The department sent on submit: the filled-in majors joined with commas. */
  function DepartmentString(majors: seq<string>): (department: string)
    ensures ValidateMajors(majors) ==> majors[0] <= department
  {
    Join(NonBlank(majors), ",")
  }

  /** Edit mode loads the department with `split(',')`: for valid majors
      without commas this gives back the filled-in majors, main major first. */
  lemma DepartmentRoundTrip(majors: seq<string>)
    requires ValidateMajors(majors)
    requires forall i :: 0 <= i < |majors| ==> ',' !in majors[i]
    ensures Split(DepartmentString(majors), ',') == NonBlank(majors)
    ensures Split(DepartmentString(majors), ',')[0] == majors[0]
  {
    NonBlankCommaFree(majors);
    SplitJoin(NonBlank(majors), ',');
  }

  lemma NonBlankCommaFree(majors: seq<string>)
    requires forall i :: 0 <= i < |majors| ==> ',' !in majors[i]
    ensures forall i :: 0 <= i < |NonBlank(majors)| ==> ',' !in NonBlank(majors)[i]
  {
    var filled := NonBlank(majors);
    forall i | 0 <= i < |filled| ensures ',' !in filled[i] {
      assert filled[i] in majors;
    }
  }

  /** `majors.filter((_, i) => i !== index)`. */
  function RemoveAt(majors: seq<string>, index: nat): (r: seq<string>)
    ensures index >= |majors| ==> r == majors
    ensures index < |majors| ==>
      (|r| == |majors| - 1
       && (forall j :: 0 <= j < index ==> r[j] == majors[j])
       && (forall j :: index <= j < |r| ==> r[j] == majors[j + 1]))
  {
    if index < |majors| then majors[..index] + majors[index + 1..] else majors
  }

  // ---------------------------------------------------------------- résumé

  datatype ResumeFile = ResumeFile(name: string, mimeType: string, size: nat)

  /** The error `handleResumeChange` reports for a chosen file: none exactly
      for a PDF of at most 5 MiB, the type error for anything but a PDF. */
  function ResumeError(file: ResumeFile): (error: Option<string>)
    ensures error.None? <==> file.mimeType == PDF_TYPE && file.size <= MAX_RESUME_SIZE
    ensures error == Some(NOT_PDF_ERROR) <==> file.mimeType != PDF_TYPE
    ensures error.Some? ==> error.value == NOT_PDF_ERROR || error.value == TOO_LARGE_ERROR
  {
    if file.mimeType != PDF_TYPE then Some(NOT_PDF_ERROR)
    else if file.size > MAX_RESUME_SIZE then Some(TOO_LARGE_ERROR)
    else None
  }

  /** `static/private/CV/{random}_{date}/{file name}`. */
  function ResumePath(randomPart: string, date: string, fileName: string): (path: string)
    ensures CV_PATH_PREFIX <= path && EndsWith(path, "/" + fileName)
  {
    var path := CV_PATH_PREFIX + randomPart + "_" + date + "/" + fileName;
    assert path[|path| - |"/" + fileName|..] == "/" + fileName;
    path
  }

  /** The résumé part of `isFormValid`: in edit mode a stored path suffices,
      otherwise a file must have been chosen. */
  predicate ResumeValid(isEditMode: bool, resume: Option<ResumeFile>, resumePath: string) {
    if isEditMode then resumePath != "" else resume.Some?
  }

  /** The verdict of `isFormValid`. */
  function FormValid(isEditMode: bool, studentId: string, majors: seq<string>,
                     resume: Option<ResumeFile>, resumePath: string): (ok: bool)
    ensures ok ==> |studentId| == 2 && IsDigits(studentId) && majors != [] && !IsBlank(majors[0])
    ensures ok ==> (isEditMode ==> resumePath != "") && (!isEditMode ==> resume.Some?)
    // The equivalence below is the bridge `IsFormValid` and `Submit` use to
    // relate their result to the three validators; the two clauses above say
    // what a valid form carries.
    ensures ok <==> ValidateStudentId(studentId).0 && ValidateMajors(majors) && ResumeValid(isEditMode, resume, resumePath)
  {
    ValidateStudentId(studentId).0 && ValidateMajors(majors) && ResumeValid(isEditMode, resume, resumePath)
  }

  // ---------------------------------------------------------------- the page

  datatype FormErrors = FormErrors(studentId: string, major: string, resume: string)

  const NO_ERRORS := FormErrors("", "", "")

  /** The body of `updateApplicantProfile`. */
  datatype ProfileUpdate = ProfileUpdate(enrollYear: int, department: string, cvKey: string)

  datatype SubmitOutcome =
    | Invalid                      // the form check failed; nothing is sent
    | SignInRequired               // no token: the page goes to /sign-in
    | Send(update: ProfileUpdate)  // the request that is sent

  class ProfileForm {
    const isEditMode: bool
    var studentId: string
    var majors: seq<string>
    var resume: Option<ResumeFile>
    var resumePath: string
    var loading: bool
    var errors: FormErrors

    /** The main major is never removed. */
    ghost predicate Valid()
      reads this
    {
      |majors| >= 1
    }

    constructor (isEditMode: bool)
      ensures Valid() && this.isEditMode == isEditMode
      ensures studentId == "" && majors == [""] && resume == None && resumePath == ""
      ensures loading == isEditMode && errors == NO_ERRORS
    {
      this.isEditMode := isEditMode;
      studentId := "";
      majors := [""];
      resume := None;
      resumePath := "";
      loading := isEditMode;
      errors := NO_ERRORS;
    }

    /** The edit-mode load effect, given whether a token is present and the
      outcome of `getApplicantProfile`. It returns where the page navigates,
      if anywhere. Present fields replace the form's; a failure leaves for
      /mypage; without a token the page leaves for /sign-in and stays loading. */
    method LoadProfile(hasToken: bool, fetched: Result<ApplicantProfile, ApiError>) returns (target: Option<string>)
      requires Valid()
      modifies this
      ensures Valid() && errors == old(errors) && resume == old(resume)
      ensures !isEditMode ==> target == None && unchanged(this)
      ensures isEditMode && !hasToken ==> target == Some("/sign-in") && unchanged(this)
      ensures isEditMode && hasToken ==> !loading
      ensures isEditMode && hasToken && fetched.Failure? ==>
        (target == Some("/mypage")
         && studentId == old(studentId) && majors == old(majors) && resumePath == old(resumePath))
      ensures isEditMode && hasToken && fetched.Success? ==>
        (target == None
         && studentId == (if PresentNumber(fetched.value.enrollYear) then ReverseStudentId(fetched.value.enrollYear.value) else old(studentId))
         && majors == (if PresentText(fetched.value.department) then Split(fetched.value.department.value, ',') else old(majors))
         && resumePath == (if PresentText(fetched.value.cvKey) then fetched.value.cvKey.value else old(resumePath)))
    {
      target := None;
      if !isEditMode {
        return;
      }
      if !hasToken {
        target := Some("/sign-in");
        return;
      }
      match fetched {
        case Success(profile) =>
          if PresentNumber(profile.enrollYear) {
            studentId := ReverseStudentId(profile.enrollYear.value);
          }
          if PresentText(profile.department) {
            majors := Split(profile.department.value, ',');
          }
          if PresentText(profile.cvKey) {
            resumePath := profile.cvKey.value;
          }
        case Failure(_) =>
          target := Some("/mypage");
      }
      loading := false;
    }

    /** `validateStudentId` as the page calls it: it also sets the message. */
    method CheckStudentId(value: string) returns (ok: bool)
      modifies this`errors
      ensures ok == ValidateStudentId(value).0
      ensures errors == old(errors).(studentId := ValidateStudentId(value).1)
    {
      var verdict := ValidateStudentId(value);
      ok := verdict.0;
      errors := errors.(studentId := verdict.1);
    }

    /** `handleStudentIdChange`: up to two digits are accepted; two digits are
      validated, an empty value clears the message. */
    method HandleStudentIdChange(value: string)
      modifies this`studentId, this`errors
      ensures MatchesDigits(value, 0, 2) ==> studentId == value
      ensures !MatchesDigits(value, 0, 2) ==> studentId == old(studentId) && errors == old(errors)
      ensures MatchesDigits(value, 0, 2) && |value| == 2 ==> errors == old(errors).(studentId := "")
      ensures MatchesDigits(value, 0, 2) && |value| == 0 ==> errors == old(errors).(studentId := "")
      ensures MatchesDigits(value, 0, 2) && |value| == 1 ==> errors == old(errors)
    {
      if value == "" || MatchesDigits(value, 0, 2) {
        studentId := value;
        if |value| == 2 {
          var _ := CheckStudentId(value);
        } else if |value| == 0 {
          errors := errors.(studentId := "");
        }
      }
    }

    /** `handleMajorChange`: the entry at `index` (an index of the rendered
      list) takes the new value; a non-empty main major clears the message. */
    method HandleMajorChange(index: nat, value: string)
      requires Valid() && index < |majors|
      modifies this`majors, this`errors
      ensures Valid() && majors == old(majors)[index := value]
      ensures errors == if value != "" && index == 0 then old(errors).(major := "") else old(errors)
    {
      majors := majors[index := value];
      if value != "" && index == 0 {
        errors := errors.(major := "");
      }
    }

    /** `handleAddMajor`: one empty entry at the end while there are fewer
      than seven, otherwise nothing. */
    method HandleAddMajor()
      requires Valid()
      modifies this`majors
      ensures Valid()
      ensures |old(majors)| >= MAX_MAJORS ==> majors == old(majors)
      ensures |old(majors)| < MAX_MAJORS ==> majors == old(majors) + [""]
      ensures |majors| <= MAX_MAJORS || majors == old(majors)
    {
      if |majors| >= MAX_MAJORS {
        return;
      }
      majors := majors + [""];
    }

    /** `handleRemoveMajor`: the main major cannot be removed; any other
      index removes exactly that entry and keeps the rest in order. */
    method HandleRemoveMajor(index: nat)
      requires Valid()
      modifies this`majors
      ensures Valid() && majors[0] == old(majors)[0]
      ensures index == 0 ==> majors == old(majors)
      ensures index != 0 ==> majors == RemoveAt(old(majors), index)
    {
      if index == 0 {
        return;
      }
      majors := RemoveAt(majors, index);
    }

    /** `validateMajors` as the page calls it: it also sets the message. */
    method CheckMajors() returns (ok: bool)
      modifies this`errors
      ensures ok == ValidateMajors(majors)
      ensures errors == old(errors).(major := if ok then "" else MAJOR_ERROR)
    {
      ok := ValidateMajors(majors);
      errors := errors.(major := if ok then "" else MAJOR_ERROR);
    }

    /** `handleResumeChange`, given the chosen file (if any), the random part
      of the path and today's calendar fields. A rejected file clears both
      the file and the path. */
    method HandleResumeChange(file: Option<ResumeFile>, randomPart: string, year: int, monthIndex: int, day: int)
      modifies this`resume, this`resumePath, this`errors
      ensures file.None? ==> resume == old(resume) && resumePath == old(resumePath) && errors == old(errors)
      ensures file.Some? && ResumeError(file.value).Some? ==>
        resume == None && resumePath == "" && errors == old(errors).(resume := ResumeError(file.value).value)
      ensures file.Some? && ResumeError(file.value).None? ==>
        resume == file && errors == old(errors).(resume := "")
        && resumePath == ResumePath(randomPart, FormatDate(year, monthIndex, day), file.value.name)
    {
      if file.None? {
        return;
      }
      var f := file.value;
      var error := ResumeError(f);
      if error.Some? {
        errors := errors.(resume := error.value);
        resume := None;
        resumePath := "";
        return;
      }
      resume := file;
      resumePath := ResumePath(randomPart, FormatDate(year, monthIndex, day), f.name);
      errors := errors.(resume := "");
    }

    /** `handleRemoveResume`. */
    method HandleRemoveResume()
      modifies this`resume, this`resumePath, this`errors
      ensures resume == None && resumePath == "" && errors == old(errors).(resume := "")
    {
      resume := None;
      resumePath := "";
      errors := errors.(resume := "");
    }

    /** `isFormValid`: both validators run (and set their messages) before
      the verdict is combined. */
    method IsFormValid() returns (ok: bool)
      modifies this`errors
      ensures ok == FormValid(isEditMode, studentId, majors, resume, resumePath)
      ensures errors == FormErrors(ValidateStudentId(studentId).1,
                                   if ValidateMajors(majors) then "" else MAJOR_ERROR,
                                   old(errors).resume)
    {
      var idOk := CheckStudentId(studentId);
      var majorsOk := CheckMajors();
      var resumeOk := if isEditMode then resumePath != "" else resume.Some?;
      ok := idOk && majorsOk && resumeOk;
    }

    /** The messages `handleSubmit` adds for an invalid form: an empty id
      and a missing file are marked. */
    method MarkMissing()
      modifies this`errors
      ensures errors.studentId == if studentId == "" then STUDENT_ID_ERROR else old(errors).studentId
      ensures errors.major == old(errors).major
      ensures errors.resume == if resume.None? then TOO_LARGE_ERROR else old(errors).resume
    {
      if studentId == "" {
        errors := errors.(studentId := STUDENT_ID_ERROR);
      }
      if resume.None? {
        errors := errors.(resume := TOO_LARGE_ERROR);
      }
    }

    /** `handleSubmit`, given whether a token is present. An invalid form
      sends nothing and marks an empty id and a missing file; a valid one
      sends the converted year, the comma-joined majors and the path. */
    method Submit(hasToken: bool) returns (outcome: SubmitOutcome)
      requires Valid()
      modifies this`errors
      ensures outcome == Invalid <==> !FormValid(isEditMode, studentId, majors, resume, resumePath)
      ensures outcome == SignInRequired <==> FormValid(isEditMode, studentId, majors, resume, resumePath) && !hasToken
      ensures outcome.Send? ==>
        (ConvertStudentId(studentId) == Some(outcome.update.enrollYear)
         && 1925 <= outcome.update.enrollYear <= 2024
         && outcome.update.department == DepartmentString(majors)
         && outcome.update.cvKey == resumePath)
      ensures outcome == Invalid ==>
        (errors.studentId == (if studentId == "" then STUDENT_ID_ERROR else ValidateStudentId(studentId).1)
         && errors.major == (if ValidateMajors(majors) then "" else MAJOR_ERROR)
         && errors.resume == (if resume.None? then TOO_LARGE_ERROR else old(errors).resume))
      ensures outcome != Invalid ==> errors == NO_ERRORS.(resume := old(errors).resume)
    {
      var ok := IsFormValid();
      if !ok {
        MarkMissing();
        return Invalid;
      }
      assert ValidateStudentId(studentId).0 && ValidateMajors(majors);
      if !hasToken {
        return SignInRequired;
      }
      ValidIdConverts(studentId);
      var year := ConvertStudentId(studentId);
      outcome := Send(ProfileUpdate(year.value, DepartmentString(majors), resumePath));
    }
  }

  /** An id that passes `validateStudentId` converts to a year in 1925..2024. */
  lemma ValidIdConverts(studentId: string)
    requires ValidateStudentId(studentId).0
    ensures ConvertStudentId(studentId).Some?
    ensures 1925 <= ConvertStudentId(studentId).value <= 2024
  {
    assert MatchesDigits(studentId, 2, 2);
  }

  /** What a saved profile loads back as in edit mode: the same year when it
      lies in 1925..2024, and the same filled-in majors when none contains a
      comma. */
  lemma SaveThenLoad(studentId: string, majors: seq<string>)
    requires ValidateStudentId(studentId).0 && ValidateMajors(majors)
    requires forall i :: 0 <= i < |majors| ==> ',' !in majors[i]
    ensures var year := ConvertStudentId(studentId).value;
      (1925 <= year <= 2024 ==> ConvertStudentId(ReverseStudentId(year)) == Some(year))
      && Split(DepartmentString(majors), ',') == NonBlank(majors)
  {
    assert MatchesDigits(studentId, 2, 2);
    var year := ConvertStudentId(studentId).value;
    StudentIdRoundTrip(year);
    DepartmentRoundTrip(majors);
  }
}
