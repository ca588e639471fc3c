/**
 * The student records the sign-up, sign-in, profile and events components
 * receive as props.
 */
module Students {

  datatype User = User(
    id: string, rollNumber: string, name: string, phoneNumber: string,
    roomNumber: string, password: string, registeredDate: string)

  /** One entry of the admin-managed allow-list. */
  datatype AuthorizedStudent = AuthorizedStudent(rollNumber: string, name: string)
}
