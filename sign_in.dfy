/** The sign-in page (src/pages/SignInPage.tsx): two text fields, the rule
    that enables the button, and the request body built from the fields. */
module SignInPage {
  import opened Types
  import opened Text

  /** `isButtonDisabled`: disabled exactly while either field is empty. */
  function ButtonDisabled(emailId: string, password: string): (disabled: bool)
    ensures disabled <==> emailId == "" || password == ""
  {
    emailId == "" || password == ""
  }

  /** Whether the button is enabled depends on nothing but which of the two
      fields are empty. */
  lemma EnablementDependsOnEmptiness(emailId1: string, password1: string, emailId2: string, password2: string)
    requires (emailId1 == "") == (emailId2 == "") && (password1 == "") == (password2 == "")
    ensures ButtonDisabled(emailId1, password1) == ButtonDisabled(emailId2, password2)
  {
  }

  class SignInForm {
    var emailId: string
    var password: string

    constructor ()
      ensures emailId == "" && password == ""
    {
      emailId := "";
      password := "";
    }

    method SetEmailId(value: string)
      modifies this`emailId
      ensures emailId == value
    {
      emailId := value;
    }

    method SetPassword(value: string)
      modifies this`password
      ensures password == value
    {
      password := value;
    }

    /** The body `onSignInRequested` sends: the composed university address,
      from which the typed id can be read back, and the password unchanged. */
    method RequestBody() returns (body: SignInRequestBody)
      ensures body.email == emailId + EMAIL_DOMAIN && body.password == password
      ensures EndsWith(body.email, EMAIL_DOMAIN) && body.email[..|emailId|] == emailId
    {
      body := MakeSignInRequestBody(ComposeEmail(emailId), password);
    }
  }
}
