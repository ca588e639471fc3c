/**
 * Row shapes of the backend tables, as the generated type declarations give
 * them. Nullable columns are `Option`s; the notification payload is JSON.
 */
module Rows {
  import opened Lists

  /** A JSON value. Numbers are kept as integers; only string equality is ever asked of them. */
  datatype Json =
    | JNull
    | JBool(b: bool)
    | JNumber(n: int)
    | JString(s: string)
    | JArray(items: seq<Json>)
    | JObject(fields: map<string, Json>)

  datatype InventoryRow = InventoryRow(
    id: string, name: string, category: string, quantity: int, available: int,
    condition: string, addedDate: string, notes: Option<string>,
    createdAt: string, updatedAt: string)

  datatype UserRow = UserRow(
    id: string, rollNumber: string, name: string, phoneNumber: string,
    roomNumber: string, password: string, registeredDate: string, createdAt: string)

  datatype IssueRow = IssueRow(
    id: string, itemId: string, itemName: string, studentId: string, studentName: string,
    phoneNumber: string, roomNumber: string, issueDate: string, returnDate: Option<string>,
    status: string, notes: Option<string>, createdAt: string)

  datatype ReturnRequestRow = ReturnRequestRow(
    id: string, issueId: string, itemId: Option<string>, itemName: Option<string>,
    studentId: Option<string>, studentName: Option<string>, requestDate: string,
    status: string, notes: Option<string>, createdAt: string)

  datatype NotificationRow = NotificationRow(
    id: string, kind: string, message: string, read: bool, data: Json, createdAt: string)

  datatype AuthorizedStudentRow = AuthorizedStudentRow(
    id: string, rollNumber: string, name: string, createdAt: string)

  datatype TransferRequestRow = TransferRequestRow(
    id: string, itemId: string, itemName: string, fromUserId: string, fromUserName: string,
    toUserId: string, toUserName: string, requestDate: string, status: string,
    notes: Option<string>, createdAt: string)
}
