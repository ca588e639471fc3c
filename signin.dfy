/**
 * The sign-in dialog's credential lookup: a required-fields guard and then
 * the first user whose roll number matches ignoring case and whose
 * password matches exactly.
 */
module Signin {
  import opened Lists
  import opened Text
  import opened Students

  datatype SigninForm = SigninForm(rollNumber: string, password: string)

  datatype SigninError = MissingFields | InvalidCredentials

  /** The lookup's predicate: roll number ignoring case, password exactly. */
  predicate CredentialsMatch(u: User, f: SigninForm)
  {
    EqualsIgnoringCase(u.rollNumber, f.rollNumber) && u.password == f.password
  }

  /**
   * `handleSignin`. Empty inputs fail before any lookup; otherwise the
   * result is the first matching user in list order, and a failure exactly
   * when no user matches. A success is what `onUserLogin` receives.
   */
  function HandleSignin(form: SigninForm, users: seq<User>): (r: Result<User, SigninError>)
    ensures r == Failure(MissingFields) <==> form.rollNumber == "" || form.password == ""
    ensures r == Failure(InvalidCredentials) <==>
              form.rollNumber != "" && form.password != "" &&
              forall i :: 0 <= i < |users| ==> !CredentialsMatch(users[i], form)
    ensures r.Success? ==>
              exists i :: 0 <= i < |users| && users[i] == r.value && CredentialsMatch(users[i], form) &&
                          forall j :: 0 <= j < i ==> !CredentialsMatch(users[j], form)
  {
    if form.rollNumber == "" || form.password == "" then Failure(MissingFields)
    else match Find(users, (u: User) => CredentialsMatch(u, form))
      case None => Failure(InvalidCredentials)
      case Some(u) => Success(u)
  }

  /** The password comparison is case-sensitive: a password differing only in case is refused. */
  lemma PasswordIsCaseSensitive(u: User, roll: string, typed: string)
    requires roll != "" && typed != ""
    requires typed != u.password && EqualsIgnoringCase(typed, u.password)
    ensures HandleSignin(SigninForm(roll, typed), [u]) == Failure(InvalidCredentials)
  {
    assert !CredentialsMatch(u, SigninForm(roll, typed));
  }

  /** The roll number comparison ignores case. */
  lemma RollNumberIgnoresCase(u: User)
    requires u.rollNumber != "" && u.password != ""
    ensures HandleSignin(SigninForm(Lower(u.rollNumber), u.password), [u]) == Success(u)
  {
    EqualsIgnoringCaseOfLower(u.rollNumber);
    assert Lower(u.rollNumber) != "" by { assert |Lower(u.rollNumber)| == |u.rollNumber|; }
  }
}
