/** The account page (src/pages/MyPage.tsx): a two-tab page whose profile
    tab fetches the applicant profile and records whether one exists, which
    decides the profile button's label and where it leads. */
module MyPage {
  import opened Results
  import opened Types
  import opened Text
  import ProfileCreatePage
  import ProfileTab

  datatype Tab = Bookmarks | Profile

  datatype ProfileStatus = Loading | Exists | NotFound

  const CREATE_PATH := "/profile/create"
  const EDIT_PATH := "/profile/create?mode=edit"
  const CREATE_LABEL := "내 프로필 생성"
  const EDIT_LABEL := "내 프로필 수정"
  const DEPT_SEPARATOR := " · "

  /** `handleCreateProfile`: the edit form exactly when a profile exists,
      the empty form otherwise (also while loading). */
  function CreateProfileTarget(status: ProfileStatus): (target: string)
    ensures target == EDIT_PATH <==> status == Exists
    ensures target == CREATE_PATH <==> status != Exists
  {
    if status == Exists then EDIT_PATH else CREATE_PATH
  }

  /** The profile button's label: "create" exactly when no profile was
      found, so "edit" while the fetch is still loading. */
  function HeaderButtonLabel(status: ProfileStatus): (caption: string)
    ensures caption == CREATE_LABEL <==> status == NotFound
    ensures caption == EDIT_LABEL <==> status != NotFound
  {
    if status == NotFound then CREATE_LABEL else EDIT_LABEL
  }

  /** The label and the target disagree only while loading: the button then
      says "edit" but leads to the empty form. */
  lemma LabelMatchesTarget(status: ProfileStatus)
    ensures (HeaderButtonLabel(status) == EDIT_LABEL && CreateProfileTarget(status) == CREATE_PATH) <==> status == Loading
  {
  }

  /** The department line: the stored pieces joined with ` · `, untrimmed
      and without suffixes. A department without commas is shown as is. */
  function DepartmentLine(department: string): (line: string)
    ensures ',' !in department ==> line == department
    ensures Split(department, ',')[0] <= line
  {
    if ',' !in department then
      SplitWithoutSeparator(department, ',');
      JoinCons(department, [], DEPT_SEPARATOR);
      Join(Split(department, ','), DEPT_SEPARATOR)
    else Join(Split(department, ','), DEPT_SEPARATOR)
  }

  /** A department saved by the profile form from valid, comma-free majors
      is shown as the filled-in majors, main major first. */
  lemma SavedDepartmentLine(majors: seq<string>)
    requires ProfileCreatePage.ValidateMajors(majors)
    requires forall i :: 0 <= i < |majors| ==> ',' !in majors[i]
    ensures DepartmentLine(ProfileCreatePage.DepartmentString(majors)) == Join(ProfileCreatePage.NonBlank(majors), DEPT_SEPARATOR)
    ensures majors[0] <= DepartmentLine(ProfileCreatePage.DepartmentString(majors))
  {
    ProfileCreatePage.DepartmentRoundTrip(majors);
  }

  /** For a single department this page and the profile tab agree up to
      the tab's trimming. */
  lemma SingleDepartmentAgreesWithTab(department: string)
    requires ',' !in department
    ensures ProfileTab.DepartmentDisplay(department) == Trim(DepartmentLine(department))
  {
  }

  /** The enrolment-year text next to the department,
      `enrollYear && \`${enrollYear}학번\``: nothing for a missing year, the
      number `0` itself for a zero year (React renders the falsy number), and
      otherwise the full year followed by `학번`. */
  function EnrollYearText(enrollYear: Option<int>): (text: string)
    ensures text == "" <==> enrollYear.None?
    ensures enrollYear == Some(0) ==> text == "0"
    ensures PresentNumber(enrollYear) ==>
      IntToString(enrollYear.value) <= text && EndsWith(text, "학번")
      && text[..|text| - |"학번"|] == IntToString(enrollYear.value)
  {
    match enrollYear
    case None => ""
    case Some(year) =>
      if year == 0 then IntToString(0)
      else
        var text := IntToString(year) + "학번";
        assert text[|text| - |"학번"|..] == "학번";
        assert text[..|text| - |"학번"|] == IntToString(year);
        text
  }

  class MyPageState {
    var activeTab: Tab
    var profileStatus: ProfileStatus
    var profile: Option<ApplicantProfile>

    /** A profile is recorded whenever the page says one exists. */
    predicate Valid()
      reads this
    {
      profileStatus == Exists ==> profile.Some?
    }

    constructor ()
      ensures Valid()
      ensures activeTab == Bookmarks && profileStatus == Loading && profile == None
    {
      activeTab := Bookmarks;
      profileStatus := Loading;
      profile := None;
    }

    /** A tab click. The fetch effect runs when the tab changes, and it
      fetches only for the profile tab. */
    method SelectTab(tab: Tab) returns (fetchStarts: bool)
      requires Valid()
      modifies this`activeTab
      ensures Valid() && activeTab == tab
      ensures fetchStarts <==> tab == Profile && old(activeTab) != Profile
    {
      fetchStarts := tab == Profile && activeTab != Profile;
      activeTab := tab;
    }

    /** The end of a fetch, given the token cookie and the response of
      `getApplicantProfile`. Without a token, or on any error, no profile
      is found; on success the profile is stored. */
    method CompleteFetch(token: Option<string>, response: Result<ApplicantProfile, ApiError>)
      requires Valid()
      modifies this`profileStatus, this`profile
      ensures Valid()
      ensures !PresentText(token) ==> profileStatus == NotFound && profile == old(profile)
      ensures PresentText(token) && response.Failure? ==> profileStatus == NotFound && profile == old(profile)
      ensures PresentText(token) && response.Success? ==> profileStatus == Exists && profile == Some(response.value)
    {
      if !PresentText(token) {
        profileStatus := NotFound;
        return;
      }
      match response {
        case Success(p) =>
          profile := Some(p);
          profileStatus := Exists;
        case Failure(_) =>
          // APPLICANT_002 (no profile yet) and every other error alike
          profileStatus := NotFound;
      }
    }
  }
}
