/** The sign-up page (src/pages/SignUpPage.tsx): four text fields, the rule
    that enables the button, and the request body built from the fields. */
module SignUpPage {
  import opened Types
  import opened Text

  /** `isButtonDisabled`: disabled while any field is empty or the two
      passwords differ. */
  function ButtonDisabled(name: string, password: string, passwordConfirm: string, emailId: string): (disabled: bool)
    ensures !disabled <==> name != "" && password != "" && emailId != "" && password == passwordConfirm
    ensures !disabled ==> passwordConfirm != ""
  {
    name == "" || password == "" || passwordConfirm == "" || emailId == "" || password != passwordConfirm
  }

  class SignUpForm {
    var name: string
    var password: string
    var passwordConfirm: string
    var emailId: string

    constructor ()
      ensures name == "" && password == "" && passwordConfirm == "" && emailId == ""
    {
      name := "";
      password := "";
      passwordConfirm := "";
      emailId := "";
    }

    method SetName(value: string)
      modifies this`name
      ensures name == value
    {
      name := value;
    }

    method SetPassword(value: string)
      modifies this`password
      ensures password == value
    {
      password := value;
    }

    method SetPasswordConfirm(value: string)
      modifies this`passwordConfirm
      ensures passwordConfirm == value
    {
      passwordConfirm := value;
    }

    method SetEmailId(value: string)
      modifies this`emailId
      ensures emailId == value
    {
      emailId := value;
    }

    /** The body `onSignUpRequested` sends: an applicant sign-up with the
      name, the composed university address and the password; the
      confirmation field is never sent. */
    method RequestBody() returns (body: SignUpRequestBody)
      ensures body.authType == APPLICANT && body.info.kind == APPLICANT && body.info.successCode == SUCCESS_CODE
      ensures body.info.name == name && body.info.password == password
      ensures body.info.email == emailId + EMAIL_DOMAIN
    {
      body := MakeSignUpRequestBody(name, ComposeEmail(emailId), password);
    }
  }

  /** Whenever the button is enabled, the password sent equals the
      confirmation the user typed, and the address is a university one. */
  lemma EnabledRequestConfirmed(name: string, password: string, passwordConfirm: string, emailId: string)
    requires !ButtonDisabled(name, password, passwordConfirm, emailId)
    ensures var body := MakeSignUpRequestBody(name, ComposeEmail(emailId), password);
      body.info.password == passwordConfirm && body.info.password != ""
      && EndsWith(body.info.email, EMAIL_DOMAIN) && body.info.email != EMAIL_DOMAIN
  {
    var email := ComposeEmail(emailId);
    assert |email| > |EMAIL_DOMAIN|;
  }
}
