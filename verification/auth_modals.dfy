/**
 * The three authentication modal flags of `AuthContext` and the
 * forgot-password flow layered on them by `AuthModals`: hash routing, the
 * two-step submit, the resend button and the close handler.
 */
module AuthModals {
  import opened Text

  /** `isLoginModalOpen`, `isSignupModalOpen`, `isForgotPasswordModalOpen`. */
  datatype Modals = Modals(login: bool, signup: bool, forgot: bool)

  /** All three start closed. */
  const AllClosed := Modals(false, false, false)

  /** At most one modal is shown. */
  predicate AtMostOne(s: Modals) {
    (if s.login then 1 else 0) + (if s.signup then 1 else 0) + (if s.forgot then 1 else 0) <= 1
  }

  /** `openLoginModal`: login shown, the other two hidden. */
  function OpenLogin(s: Modals): (r: Modals)
    ensures r.login && !r.signup && !r.forgot
  {
    Modals(true, false, false)
  }

  /** `closeLoginModal`: only the login flag is cleared. */
  function CloseLogin(s: Modals): (r: Modals)
    ensures !r.login && r.signup == s.signup && r.forgot == s.forgot
  {
    s.(login := false)
  }

  /** `openSignupModal`: signup shown, the other two hidden. */
  function OpenSignup(s: Modals): (r: Modals)
    ensures r.signup && !r.login && !r.forgot
  {
    Modals(false, true, false)
  }

  /** `closeSignupModal`: only the signup flag is cleared. */
  function CloseSignup(s: Modals): (r: Modals)
    ensures !r.signup && r.login == s.login && r.forgot == s.forgot
  {
    s.(signup := false)
  }

  /** `openForgotPasswordModal`: forgot-password shown, the other two hidden. */
  function OpenForgot(s: Modals): (r: Modals)
    ensures r.forgot && !r.login && !r.signup
  {
    Modals(false, false, true)
  }

  /** `closeForgotPasswordModal`: only the forgot-password flag is cleared. */
  function CloseForgot(s: Modals): (r: Modals)
    ensures !r.forgot && r.login == s.login && r.signup == s.signup
  {
    s.(forgot := false)
  }

  /** The six context operations. */
  datatype ModalOp = OpenLoginOp | CloseLoginOp | OpenSignupOp | CloseSignupOp | OpenForgotOp | CloseForgotOp

  function Apply(s: Modals, op: ModalOp): Modals {
    match op
    case OpenLoginOp => OpenLogin(s)
    case CloseLoginOp => CloseLogin(s)
    case OpenSignupOp => OpenSignup(s)
    case CloseSignupOp => CloseSignup(s)
    case OpenForgotOp => OpenForgot(s)
    case CloseForgotOp => CloseForgot(s)
  }

  /** Every operation preserves "at most one modal open". */
  lemma ApplyKeepsAtMostOne(s: Modals, op: ModalOp)
    requires AtMostOne(s)
    ensures AtMostOne(Apply(s, op))
  {
  }

  /** The state after a sequence of operations from a given start. */
  function Run(s: Modals, ops: seq<ModalOp>): Modals
    decreases |ops|
  {
    if |ops| == 0 then s else Run(Apply(s, ops[0]), ops[1..])
  }

  /** Every state reachable from the initial one shows at most one modal. */
  lemma {:induction false} ReachableAtMostOne(s: Modals, ops: seq<ModalOp>)
    requires AtMostOne(s)
    ensures AtMostOne(Run(s, ops))
    decreases |ops|
  {
    if |ops| > 0 {
      ApplyKeepsAtMostOne(s, ops[0]);
      ReachableAtMostOne(Apply(s, ops[0]), ops[1..]);
    }
  }

  /** The provider's initial state satisfies the invariant, so every reachable state does. */
  lemma InitialReachableAtMostOne(ops: seq<ModalOp>)
    ensures AtMostOne(Run(AllClosed, ops))
  {
    ReachableAtMostOne(AllClosed, ops);
  }

  /** Opening is idempotent, and opening then closing the same modal leaves all three closed. */
  lemma OpenIdempotentAndOpenCloseClears(s: Modals)
    ensures OpenLogin(OpenLogin(s)) == OpenLogin(s)
    ensures OpenSignup(OpenSignup(s)) == OpenSignup(s)
    ensures OpenForgot(OpenForgot(s)) == OpenForgot(s)
    ensures CloseLogin(OpenLogin(s)) == AllClosed
    ensures CloseSignup(OpenSignup(s)) == AllClosed
    ensures CloseForgot(OpenForgot(s)) == AllClosed
  {
  }

  /** `handleHashChange`: the three known hashes open their modal; any other hash changes nothing. */
  function RouteHash(hash: string, s: Modals): (r: Modals)
    ensures hash == "#login" ==> r == OpenLogin(s)
    ensures hash == "#signup" ==> r == OpenSignup(s)
    ensures hash == "#forgot-password" ==> r == OpenForgot(s)
    ensures hash !in {"#login", "#signup", "#forgot-password"} ==> r == s
  {
    if hash == "#login" then OpenLogin(s)
    else if hash == "#signup" then OpenSignup(s)
    else if hash == "#forgot-password" then OpenForgot(s)
    else s
  }

  /** Routing never breaks the one-modal invariant. */
  lemma RouteHashKeepsAtMostOne(hash: string, s: Modals)
    requires AtMostOne(s)
    ensures AtMostOne(RouteHash(hash, s))
  {
  }

  /** The forgot-password form: the modal flags, the entered email and the step (1 = form, 2 = sent). */
  datatype ForgotPassword = ForgotPassword(modals: Modals, email: string, step: int)

  /**
   * `handleForgotPasswordSubmit`: at step 1 a blank email is refused and a
   * non-blank one moves to step 2 keeping the email; at any other step
   * nothing happens.
   */
  function SubmitForgot(f: ForgotPassword): (r: ForgotPassword)
    ensures f.step != 1 ==> r == f
    ensures f.step == 1 && IsBlank(f.email) ==> r == f
    ensures f.step == 1 && !IsBlank(f.email) ==> r == f.(step := 2)
    ensures r.email == f.email && r.modals == f.modals
  {
    if f.step == 1 then
      if IsBlank(f.email) then f else f.(step := 2)
    else f
  }

  /** A whitespace-only email never leaves step 1. */
  lemma SubmitWhitespaceEmailStays(f: ForgotPassword)
    requires f.step == 1 && AllSpace(f.email)
    ensures SubmitForgot(f) == f
  {
    BlankIffAllSpace(f.email);
  }

  /** `handleCloseForgotPassword`: modal closed, email cleared, back at step 1. */
  function CloseForgotPassword(f: ForgotPassword): (r: ForgotPassword)
    ensures !r.modals.forgot && r.email == "" && r.step == 1
    ensures r.modals.login == f.modals.login && r.modals.signup == f.modals.signup
  {
    ForgotPassword(CloseForgot(f.modals), "", 1)
  }

  /** The "resend to another address" button: back to step 1, the email kept. */
  function Resend(f: ForgotPassword): (r: ForgotPassword)
    ensures r.step == 1 && r.email == f.email && r.modals == f.modals
  {
    f.(step := 1)
  }

  /** Resending after a successful submit returns to exactly the state before it. */
  lemma ResendUndoesSubmit(f: ForgotPassword)
    requires f.step == 1 && !IsBlank(f.email)
    ensures Resend(SubmitForgot(f)) == f
    ensures SubmitForgot(f).step == 2
  {
  }

  /**
   * Closing forgets any earlier submit and leaves a blank email, which a
   * submit refuses; closing twice is closing once.
   */
  lemma CloseForgetsSubmit(f: ForgotPassword)
    ensures CloseForgotPassword(SubmitForgot(f)) == CloseForgotPassword(f)
    ensures SubmitForgot(CloseForgotPassword(f)) == CloseForgotPassword(f)
    ensures CloseForgotPassword(CloseForgotPassword(f)) == CloseForgotPassword(f)
  {
    BlankIffAllSpace("");
  }
}
