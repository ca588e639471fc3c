/**
 * The sign-up dialog's decision: a chain of checks with early return, the
 * first failing check naming the error, and on success the new user record
 * handed once to the registration callback.
 */
module Signup {
  import opened Lists
  import opened Text
  import opened Students

  datatype SignupForm = SignupForm(
    rollNumber: string, name: string, phoneNumber: string, roomNumber: string, password: string)

  datatype SignupError = MissingFields | InvalidPhone | NotAuthorized | AlreadyRegistered

  /** Some required field is the empty string. */
  predicate AnyFieldEmpty(f: SignupForm)
  {
    f.rollNumber == "" || f.name == "" || f.phoneNumber == "" || f.roomNumber == "" || f.password == ""
  }

  /** An allow-list entry names this student: roll number and name both equal ignoring case. */
  predicate ListedAs(s: AuthorizedStudent, f: SignupForm)
  {
    EqualsIgnoringCase(s.rollNumber, f.rollNumber) && EqualsIgnoringCase(s.name, f.name)
  }

  /** `authorizedStudents.some(student => ...)`. */
  predicate IsAuthorized(authorized: seq<AuthorizedStudent>, f: SignupForm)
    ensures IsAuthorized(authorized, f) <==> exists i :: 0 <= i < |authorized| && ListedAs(authorized[i], f)
  {
    Any(authorized, (s: AuthorizedStudent) => ListedAs(s, f))
  }

  /** `users.some(user => user.rollNumber.toLowerCase() === roll.toLowerCase())`. */
  predicate RollTaken(users: seq<User>, roll: string)
    ensures RollTaken(users, roll) <==> exists i :: 0 <= i < |users| && EqualsIgnoringCase(users[i].rollNumber, roll)
  {
    Any(users, (u: User) => EqualsIgnoringCase(u.rollNumber, roll))
  }

  /**
   * `handleSignup`. The checks run in the order required fields, phone
   * pattern, allow-list, duplicate roll number; each error is reported
   * exactly when every earlier check passed and its own fails. On success
   * the new user copies the form verbatim (no lower-casing), with the fresh
   * id and today's date; that user is what `onUserRegister` receives, once.
   */
  function HandleSignup(form: SignupForm, authorized: seq<AuthorizedStudent>, users: seq<User>,
                        freshId: string, today: string): (r: Result<User, SignupError>)
    ensures r == Failure(MissingFields) <==> AnyFieldEmpty(form)
    ensures r == Failure(InvalidPhone) <==> !AnyFieldEmpty(form) && !IsTenDigitPhone(form.phoneNumber)
    ensures r == Failure(NotAuthorized) <==>
              !AnyFieldEmpty(form) && IsTenDigitPhone(form.phoneNumber) &&
              forall i :: 0 <= i < |authorized| ==> !ListedAs(authorized[i], form)
    ensures r == Failure(AlreadyRegistered) <==>
              !AnyFieldEmpty(form) && IsTenDigitPhone(form.phoneNumber) &&
              (exists i :: 0 <= i < |authorized| && ListedAs(authorized[i], form)) &&
              (exists i :: 0 <= i < |users| && EqualsIgnoringCase(users[i].rollNumber, form.rollNumber))
    ensures r.Success? ==>
              r.value == User(freshId, form.rollNumber, form.name, form.phoneNumber,
                              form.roomNumber, form.password, today)
  {
    if AnyFieldEmpty(form) then Failure(MissingFields)
    else if !IsTenDigitPhone(form.phoneNumber) then Failure(InvalidPhone)
    else if !IsAuthorized(authorized, form) then Failure(NotAuthorized)
    else if RollTaken(users, form.rollNumber) then Failure(AlreadyRegistered)
    else Success(User(freshId, form.rollNumber, form.name, form.phoneNumber,
                      form.roomNumber, form.password, today))
  }

  /** A successful sign-up produces a user no existing user collides with, ignoring case. */
  lemma SignupAvoidsDuplicates(form: SignupForm, authorized: seq<AuthorizedStudent>, users: seq<User>,
                               freshId: string, today: string)
    requires HandleSignup(form, authorized, users, freshId, today).Success?
    ensures var u := HandleSignup(form, authorized, users, freshId, today).value;
            forall i :: 0 <= i < |users| ==> !EqualsIgnoringCase(users[i].rollNumber, u.rollNumber)
  {
  }

  /** Once a user is registered, signing up again with that roll number in any case is refused. */
  lemma SecondSignupRefused(form: SignupForm, again: SignupForm, authorized: seq<AuthorizedStudent>,
                            users: seq<User>, id1: string, id2: string, today: string)
    requires HandleSignup(form, authorized, users, id1, today).Success?
    requires EqualsIgnoringCase(again.rollNumber, form.rollNumber)
    ensures HandleSignup(again, authorized, users + [HandleSignup(form, authorized, users, id1, today).value],
                         id2, today).Failure?
  {
    var u := HandleSignup(form, authorized, users, id1, today).value;
    var all := users + [u];
    assert all[|users|] == u;
    assert EqualsIgnoringCase(all[|users|].rollNumber, again.rollNumber);
  }
}
