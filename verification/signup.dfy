/**
 * The signup modal's submit and close handlers. The registration request is
 * returned rather than sent; its outcome is an input, and the access token
 * store stands for `localStorage['accessToken']`.
 */
module Signup {
  import opened Wrappers
  import opened AuthModals

  /** The five form fields. */
  datatype SignupForm = SignupForm(name: string, email: string, password: string, confirmPassword: string, phoneNumber: string)

  const EmptyForm := SignupForm("", "", "", "", "")

  /** The body of `POST /auth/register`. */
  datatype RegisterRequest = RegisterRequest(name: string, email: string, password: string, phoneNumber: string)

  /** How the registration request ended: with a response carrying a token, or with any error. */
  datatype RegisterOutcome = Registered(accessToken: string) | RegisterFailed

  /** What the handler reads and writes. */
  datatype SignupState = SignupState(modals: Modals, form: SignupForm, storedToken: Option<string>)

  /** The state after a submit, and the request it issued, if any. */
  datatype Submitted = Submitted(state: SignupState, request: Option<RegisterRequest>)

  /**
   * `handleSignupSubmit`: a password mismatch issues nothing and changes
   * nothing; otherwise the request carries exactly name, email, password and
   * phone number, the token is stored only on success, and whatever the
   * outcome the modal closes and the form is cleared.
   */
  function HandleSignupSubmit(st: SignupState, outcome: RegisterOutcome): (r: Submitted)
    ensures st.form.password != st.form.confirmPassword ==> r == Submitted(st, None)
    ensures st.form.password == st.form.confirmPassword ==>
      && r.request == Some(RegisterRequest(st.form.name, st.form.email, st.form.password, st.form.phoneNumber))
      && r.state.form == EmptyForm
      && r.state.modals == CloseSignup(st.modals)
      && (outcome.Registered? ==> r.state.storedToken == Some(outcome.accessToken))
      && (outcome.RegisterFailed? ==> r.state.storedToken == st.storedToken)
  {
    if st.form.password != st.form.confirmPassword then Submitted(st, None)
    else
      var f := st.form;
      var request := RegisterRequest(f.name, f.email, f.password, f.phoneNumber);
      var token := if outcome.Registered? then Some(outcome.accessToken) else st.storedToken;
      Submitted(SignupState(CloseSignup(st.modals), EmptyForm, token), Some(request))
  }

  /** A stored token changes only through a successful registration, and then to its token. */
  lemma TokenOnlyOnSuccess(st: SignupState, outcome: RegisterOutcome)
    ensures HandleSignupSubmit(st, outcome).state.storedToken != st.storedToken ==>
      outcome.Registered? && HandleSignupSubmit(st, outcome).request.Some?
      && HandleSignupSubmit(st, outcome).state.storedToken == Some(outcome.accessToken)
  {
  }

  /** Whatever the outcome, a request is issued exactly when the two passwords agree. */
  lemma RequestIffPasswordsMatch(st: SignupState, outcome: RegisterOutcome)
    ensures HandleSignupSubmit(st, outcome).request.Some? <==> st.form.password == st.form.confirmPassword
    ensures HandleSignupSubmit(st, outcome).request.Some? ==>
      HandleSignupSubmit(st, outcome).request.value.password == st.form.confirmPassword
  {
  }

  /** `handleCloseSignup`: the modal closes and all five fields are cleared. */
  function HandleCloseSignup(st: SignupState): (r: SignupState)
    ensures r.form == EmptyForm && !r.modals.signup
    ensures r.modals.login == st.modals.login && r.modals.forgot == st.modals.forgot
    ensures r.storedToken == st.storedToken
  {
    st.(modals := CloseSignup(st.modals), form := EmptyForm)
  }

  /**
   * A submit with matching passwords ends exactly where closing the modal
   * would, apart from the stored token; closing twice is closing once.
   */
  lemma SubmitEndsAsClose(st: SignupState, outcome: RegisterOutcome)
    ensures st.form.password == st.form.confirmPassword ==>
      HandleSignupSubmit(st, outcome).state.(storedToken := st.storedToken) == HandleCloseSignup(st)
    ensures HandleCloseSignup(HandleCloseSignup(st)) == HandleCloseSignup(st)
  {
  }
}
