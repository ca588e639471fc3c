/**
 * The profile dialog: the student's own issue records and the ones still
 * out, and the password-change checks.
 */
module Profile {
  import opened Lists
  import opened Students

  datatype Status = Issued | Returned

  datatype IssueRecord = IssueRecord(
    id: string, itemId: string, itemName: string, studentName: string, studentId: string,
    roomNumber: string, phoneNumber: string, issueDate: string, returnDate: Option<string>,
    status: Status, notes: Option<string>)

  datatype PasswordForm = PasswordForm(currentPassword: string, newPassword: string, confirmPassword: string)

  datatype PasswordError = MissingFields | WrongCurrentPassword | Mismatch | TooShort

  /** The arguments of `onPasswordChange(user.id, newPassword)`. */
  datatype PasswordChange = PasswordChange(userId: string, newPassword: string)

  const MinPasswordLength := 4

  /** `issues.filter(issue => issue.studentId === user.rollNumber)`: exact, case-sensitive match. */
  function UserIssues(issues: seq<IssueRecord>, user: User): (r: seq<IssueRecord>)
    ensures forall k :: 0 <= k < |r| ==> r[k] in issues && r[k].studentId == user.rollNumber
    ensures forall k :: 0 <= k < |issues| && issues[k].studentId == user.rollNumber ==> issues[k] in r
  {
    Filter(issues, (i: IssueRecord) => i.studentId == user.rollNumber)
  }

  /** `userIssues.filter(issue => issue.status === 'issued')`. */
  function ActiveIssues(issues: seq<IssueRecord>, user: User): (r: seq<IssueRecord>)
    ensures |r| <= |UserIssues(issues, user)|
    ensures forall k :: 0 <= k < |r| ==> r[k] in UserIssues(issues, user) && r[k].status == Issued
    ensures forall k :: 0 <= k < |r| ==> r[k] in issues && r[k].studentId == user.rollNumber
    ensures forall k :: 0 <= k < |issues| && issues[k].studentId == user.rollNumber && issues[k].status == Issued
              ==> issues[k] in r
  {
    var mine := UserIssues(issues, user);
    var r := Filter(mine, (i: IssueRecord) => i.status == Issued);
    assert forall k :: 0 <= k < |issues| && issues[k].studentId == user.rollNumber ==> issues[k] in mine;
    r
  }

  /** Both lists follow the order of `issues`. */
  lemma ProfileListsKeepOrder(a: seq<IssueRecord>, b: seq<IssueRecord>, user: User)
    ensures UserIssues(a + b, user) == UserIssues(a, user) + UserIssues(b, user)
    ensures ActiveIssues(a + b, user) == ActiveIssues(a, user) + ActiveIssues(b, user)
  {
    FilterConcat(a, b, (i: IssueRecord) => i.studentId == user.rollNumber);
    FilterConcat(UserIssues(a, user), UserIssues(b, user), (i: IssueRecord) => i.status == Issued);
  }

  /**
   * `handlePasswordChange`. The checks run in the order all fields filled,
   * current password equal to the stored one, new equal to confirmation,
   * new at least four characters; each error is reported exactly when every
   * earlier check passed and its own fails. Only when all pass is the
   * change (user id, new password) produced, for `onPasswordChange`.
   */
  function HandlePasswordChange(user: User, form: PasswordForm): (r: Result<PasswordChange, PasswordError>)
    ensures r == Failure(MissingFields) <==>
              form.currentPassword == "" || form.newPassword == "" || form.confirmPassword == ""
    ensures r == Failure(WrongCurrentPassword) <==>
              form.currentPassword != "" && form.newPassword != "" && form.confirmPassword != "" &&
              form.currentPassword != user.password
    ensures r == Failure(Mismatch) <==>
              form.currentPassword != "" && form.newPassword != "" && form.confirmPassword != "" &&
              form.currentPassword == user.password && form.newPassword != form.confirmPassword
    ensures r == Failure(TooShort) <==>
              form.currentPassword != "" && form.newPassword != "" && form.confirmPassword != "" &&
              form.currentPassword == user.password && form.newPassword == form.confirmPassword &&
              |form.newPassword| < MinPasswordLength
    ensures r.Success? ==> r.value == PasswordChange(user.id, form.newPassword)
    ensures r.Success? ==> |r.value.newPassword| >= MinPasswordLength && form.currentPassword == user.password
  {
    if form.currentPassword == "" || form.newPassword == "" || form.confirmPassword == "" then Failure(MissingFields)
    else if form.currentPassword != user.password then Failure(WrongCurrentPassword)
    else if form.newPassword != form.confirmPassword then Failure(Mismatch)
    else if |form.newPassword| < MinPasswordLength then Failure(TooShort)
    else Success(PasswordChange(user.id, form.newPassword))
  }
}
