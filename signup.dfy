/** The sign-up form's submit handler (src/components/auth/SignupForm.tsx): two
    guards in a fixed order, then one call of the `onSignup` callback. */
module Signup {
  import opened Common

  /** The shortest password the form lets through. */
  const MinPasswordLength: nat := 6

  /** How a submit ends: one of the two error toasts, or the callback was called. */
  datatype Verdict = MissingField | PasswordTooShort | Accepted

  /** The arguments of one `onSignup(email, password, name)` call. */
  datatype SignupCall = SignupCall(email: String, password: String, name: String)

  /** The guard chain. The emptiness check comes first, so an empty password is a
      missing field, never a short one; only input that passes both is accepted. */
  function Validate(email: String, password: String, name: String): (v: Verdict)
    ensures v == MissingField <==> email == [] || password == [] || name == []
    ensures v == PasswordTooShort <==>
      email != [] && password != [] && name != [] && |password| < MinPasswordLength
    ensures v == Accepted <==> email != [] && name != [] && |password| >= MinPasswordLength
  {
    if email == [] || password == [] || name == [] then MissingField
    else if |password| < MinPasswordLength then PasswordTooShort
    else Accepted
  }

  /** `handleSubmit`: the verdict and the calls made to `onSignup`, in order. The
      call is the handler's last step and its rejection is caught and logged, so the
      handler itself never fails and its result does not depend on how the call
      settles. */
  method HandleSubmit(email: String, password: String, name: String)
    returns (verdict: Verdict, calls: seq<SignupCall>)
    ensures verdict == Validate(email, password, name)
    ensures verdict != Accepted ==> calls == []
    ensures verdict == Accepted ==> calls == [SignupCall(email, password, name)]
  {
    calls := [];
    if email == [] || password == [] || name == [] {
      verdict := MissingField;
      return;
    }
    if |password| < MinPasswordLength {
      verdict := PasswordTooShort;
      return;
    }
    calls := calls + [SignupCall(email, password, name)];
    verdict := Accepted;
  }

  /** The submit button: `disabled={isLoading}`. */
  predicate SignupButtonEnabled(isLoading: bool)
    ensures isLoading ==> !SignupButtonEnabled(isLoading)
  {
    !isLoading
  }
}
