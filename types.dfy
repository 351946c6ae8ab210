/** Request bodies and shared record shapes (src/types.ts). */
module Types {
  import opened Results
  import opened Text

  const SUCCESS_CODE := "ok"

  /** The only account kind this client signs up and signs in: the literal
      types `authType`, `infoType` and `userRole`. */
  const APPLICANT := "APPLICANT"

  /** `PositionType` is imported from types.ts but not defined there; it is
      modelled as its string values, of which the components know eight. */
  type PositionType = string

  const POSITION_TYPES: seq<PositionType> :=
    ["FRONT", "APP", "BACKEND", "DATA", "OTHERS", "DESIGN", "PLANNER", "MARKETING"]

  datatype SignUpInfo = SignUpInfo(
    kind: string,   // the JSON field `type`
    name: string,
    email: string,
    password: string,
    successCode: string)

  datatype SignUpRequestBody = SignUpRequestBody(authType: string, info: SignUpInfo)

  /** `makeSignUpRequestBody`: an applicant sign-up carrying the given name,
      e-mail and password unchanged. */
  function MakeSignUpRequestBody(name: string, email: string, password: string): (body: SignUpRequestBody)
    ensures body.authType == APPLICANT && body.info.kind == APPLICANT
    ensures body.info.successCode == SUCCESS_CODE
    ensures body.info.name == name && body.info.email == email && body.info.password == password
  {
    SignUpRequestBody(APPLICANT, SignUpInfo(APPLICANT, name, email, password, SUCCESS_CODE))
  }

  datatype SignInRequestBody = SignInRequestBody(email: string, password: string)

  /** `makeSignInRequestBody`: the credentials, unchanged. */
  function MakeSignInRequestBody(email: string, password: string): (body: SignInRequestBody)
    ensures body.email == email && body.password == password
  {
    SignInRequestBody(email, password)
  }

  /** The university mail domain both account pages append to the typed
      e-mail id. */
  const EMAIL_DOMAIN := "@snu.ac.kr"

  /** `emailId + emailDomain`: the address ends with the domain, and the
      id is what precedes it. */
  function ComposeEmail(emailId: string): (email: string)
    ensures EndsWith(email, EMAIL_DOMAIN)
    ensures |email| == |emailId| + |EMAIL_DOMAIN| && email[..|emailId|] == emailId
  {
    var email := emailId + EMAIL_DOMAIN;
    assert email[|email| - |EMAIL_DOMAIN|..] == EMAIL_DOMAIN;
    email
  }

  /** Different ids give different addresses. */
  lemma ComposeEmailInjective(a: string, b: string)
    requires ComposeEmail(a) == ComposeEmail(b)
    ensures a == b
  {
    assert a == ComposeEmail(a)[..|a|];
  }

  datatype ApiError = ApiError(code: string, message: string)

  /** The fields of an applicant profile that the pages read. The type is
      imported from types.ts but not defined there; optional fields are
      `Option`s. */
  datatype ApplicantProfile = ApplicantProfile(
    name: string,
    email: string,
    enrollYear: Option<int>,
    department: Option<string>,
    cvKey: Option<string>,
    positions: Option<seq<PositionType>>,
    explanation: Option<string>,
    stacks: Option<seq<string>>,
    links: Option<seq<string>>)

  /** JavaScript truthiness of an optional string: present and non-empty. */
  predicate PresentText(s: Option<string>) {
    s.Some? && s.value != ""
  }

  /** JavaScript truthiness of an optional number: present and not zero. */
  predicate PresentNumber(n: Option<int>) {
    n.Some? && n.value != 0
  }
}
