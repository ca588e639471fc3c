/**
 * The data hook's local copies of the seven tables, and how it keeps them
 * current: a fetch on mount replaces each list whose query returned data,
 * and each table's change feed applies one list transform per event
 * (prepend or append on INSERT, replace-by-id on UPDATE, filter-by-id on
 * DELETE), with some tables ignoring some event kinds.
 *
 * The backend itself, the channels and the write wrappers are not modelled;
 * an event or a query answer arrives here as a value.
 */
module Realtime {
  import opened Lists
  import opened Rows

  /** One change-feed payload: the new row of an INSERT or UPDATE, the old row's id of a DELETE. */
  datatype Change<T> = Insert(row: T) | Update(row: T) | Delete(oldId: string)

  datatype InsertAt = Front | Back

  /** How one table's handler treats the three event kinds. */
  datatype Policy = Policy(insertAt: InsertAt, appliesUpdate: bool, appliesDelete: bool)

  const InventoryPolicy := Policy(Front, true, true)
  const IssuesPolicy := Policy(Front, true, false)
  const NotificationsPolicy := Policy(Front, true, true)
  const ReturnRequestsPolicy := Policy(Front, true, false)
  const UsersPolicy := Policy(Front, false, false)
  const AuthorizedStudentsPolicy := Policy(Back, false, false)
  const TransferRequestsPolicy := Policy(Front, true, false)

  /** `prev.map(x => x.id === row.id ? row : x)`. */
  function ReplaceById<T>(rows: seq<T>, row: T, idOf: T -> string): (r: seq<T>)
    ensures |r| == |rows|
    ensures forall k :: 0 <= k < |rows| && idOf(rows[k]) == idOf(row) ==> r[k] == row
    ensures forall k :: 0 <= k < |rows| && idOf(rows[k]) != idOf(row) ==> r[k] == rows[k]
  {
    Map(rows, (x: T) => if idOf(x) == idOf(row) then row else x)
  }

  /** An UPDATE for a row the list does not hold is dropped: the handler never inserts. */
  lemma ReplaceAbsentIsIdentity<T>(rows: seq<T>, row: T, idOf: T -> string)
    requires forall k :: 0 <= k < |rows| ==> idOf(rows[k]) != idOf(row)
    ensures ReplaceById(rows, row, idOf) == rows
  {
    var r := ReplaceById(rows, row, idOf);
    assert forall k :: 0 <= k < |rows| ==> r[k] == rows[k];
  }

  /** Applying the same UPDATE twice is applying it once. */
  lemma ReplaceIdempotent<T>(rows: seq<T>, row: T, idOf: T -> string)
    ensures ReplaceById(ReplaceById(rows, row, idOf), row, idOf) == ReplaceById(rows, row, idOf)
  {
    var once := ReplaceById(rows, row, idOf);
    var twice := ReplaceById(once, row, idOf);
    forall k | 0 <= k < |rows|
      ensures twice[k] == once[k]
    {
      if idOf(rows[k]) == idOf(row) {
        assert once[k] == row;
      }
    }
  }

  /** After an UPDATE, the list holds the new row wherever an old row had its id. */
  lemma ReplaceHoldsNewRow<T>(rows: seq<T>, row: T, idOf: T -> string)
    requires exists k :: 0 <= k < |rows| && idOf(rows[k]) == idOf(row)
    ensures row in ReplaceById(rows, row, idOf)
  {
    var k :| 0 <= k < |rows| && idOf(rows[k]) == idOf(row);
    assert ReplaceById(rows, row, idOf)[k] == row;
  }

  /** `prev.filter(x => x.id !== id)`. */
  function RemoveById<T>(rows: seq<T>, id: string, idOf: T -> string): (r: seq<T>)
    ensures |r| <= |rows|
    ensures forall k :: 0 <= k < |r| ==> idOf(r[k]) != id && r[k] in rows
    ensures forall k :: 0 <= k < |rows| && idOf(rows[k]) != id ==> rows[k] in r
  {
    Filter(rows, (x: T) => idOf(x) != id)
  }

  /** A DELETE keeps the surviving rows in their order. */
  lemma RemoveByIdConcat<T>(a: seq<T>, b: seq<T>, id: string, idOf: T -> string)
    ensures RemoveById(a + b, id, idOf) == RemoveById(a, id, idOf) + RemoveById(b, id, idOf)
  {
    FilterConcat(a, b, (x: T) => idOf(x) != id);
  }

  /** A DELETE for a row the list does not hold changes nothing. */
  lemma RemoveAbsentIsIdentity<T>(rows: seq<T>, id: string, idOf: T -> string)
    requires forall k :: 0 <= k < |rows| ==> idOf(rows[k]) != id
    ensures RemoveById(rows, id, idOf) == rows
  {
    FilterKeepsAll(rows, (x: T) => idOf(x) != id);
  }

  /** One handler: the list transform a policy applies for one event. */
  function Apply<T>(p: Policy, idOf: T -> string, prev: seq<T>, ev: Change<T>): (next: seq<T>)
  {
    match ev
    case Insert(row) => if p.insertAt == Front then [row] + prev else prev + [row]
    case Update(row) => if p.appliesUpdate then ReplaceById(prev, row, idOf) else prev
    case Delete(id) => if p.appliesDelete then RemoveById(prev, id, idOf) else prev
  }

  /** Whatever the policy, an INSERT adds exactly the new row and an UPDATE keeps the length. */
  lemma ApplySizes<T>(p: Policy, idOf: T -> string, prev: seq<T>, ev: Change<T>)
    ensures ev.Insert? ==> |Apply(p, idOf, prev, ev)| == |prev| + 1
    ensures ev.Insert? ==> multiset(Apply(p, idOf, prev, ev)) == multiset(prev) + multiset{ev.row}
    ensures ev.Update? ==> |Apply(p, idOf, prev, ev)| == |prev|
    ensures ev.Delete? ==> |Apply(p, idOf, prev, ev)| <= |prev|
  {
  }

  function InventoryId(r: InventoryRow): (id: string) { r.id }
  function UserId(r: UserRow): (id: string) { r.id }
  function IssueId(r: IssueRow): (id: string) { r.id }
  function ReturnRequestId(r: ReturnRequestRow): (id: string) { r.id }
  function NotificationId(r: NotificationRow): (id: string) { r.id }
  function AuthorizedStudentId(r: AuthorizedStudentRow): (id: string) { r.id }
  function TransferRequestId(r: TransferRequestRow): (id: string) { r.id }

  /** Inventory: INSERT prepends, UPDATE replaces by id, DELETE filters by id. */
  function InventoryReducer(prev: seq<InventoryRow>, ev: Change<InventoryRow>): (r: seq<InventoryRow>)
    ensures ev.Insert? ==> r == [ev.row] + prev
    ensures ev.Update? ==> r == ReplaceById(prev, ev.row, InventoryId)
    ensures ev.Delete? ==> r == RemoveById(prev, ev.oldId, InventoryId)
  {
    Apply(InventoryPolicy, InventoryId, prev, ev)
  }

  /** Issues: INSERT prepends, UPDATE replaces by id, DELETE is ignored. */
  function IssuesReducer(prev: seq<IssueRow>, ev: Change<IssueRow>): (r: seq<IssueRow>)
    ensures ev.Insert? ==> r == [ev.row] + prev
    ensures ev.Update? ==> r == ReplaceById(prev, ev.row, IssueId)
    ensures ev.Delete? ==> r == prev
  {
    Apply(IssuesPolicy, IssueId, prev, ev)
  }

  /** Notifications: INSERT prepends, UPDATE replaces by id, DELETE filters by id. */
  function NotificationsReducer(prev: seq<NotificationRow>, ev: Change<NotificationRow>): (r: seq<NotificationRow>)
    ensures ev.Insert? ==> r == [ev.row] + prev
    ensures ev.Update? ==> r == ReplaceById(prev, ev.row, NotificationId)
    ensures ev.Delete? ==> r == RemoveById(prev, ev.oldId, NotificationId)
  {
    Apply(NotificationsPolicy, NotificationId, prev, ev)
  }

  /** Return requests: INSERT prepends, UPDATE replaces by id, DELETE is ignored. */
  function ReturnRequestsReducer(prev: seq<ReturnRequestRow>, ev: Change<ReturnRequestRow>): (r: seq<ReturnRequestRow>)
    ensures ev.Insert? ==> r == [ev.row] + prev
    ensures ev.Update? ==> r == ReplaceById(prev, ev.row, ReturnRequestId)
    ensures ev.Delete? ==> r == prev
  {
    Apply(ReturnRequestsPolicy, ReturnRequestId, prev, ev)
  }

  /** Users: INSERT prepends; UPDATE and DELETE are ignored. */
  function UsersReducer(prev: seq<UserRow>, ev: Change<UserRow>): (r: seq<UserRow>)
    ensures ev.Insert? ==> r == [ev.row] + prev
    ensures !ev.Insert? ==> r == prev
  {
    Apply(UsersPolicy, UserId, prev, ev)
  }

  /** Authorized students: INSERT appends at the end; UPDATE and DELETE are ignored. */
  function AuthorizedStudentsReducer(prev: seq<AuthorizedStudentRow>, ev: Change<AuthorizedStudentRow>)
    : (r: seq<AuthorizedStudentRow>)
    ensures ev.Insert? ==> r == prev + [ev.row]
    ensures !ev.Insert? ==> r == prev
  {
    Apply(AuthorizedStudentsPolicy, AuthorizedStudentId, prev, ev)
  }

  /** Transfer requests: INSERT prepends, UPDATE replaces by id, DELETE is ignored. */
  function TransferRequestsReducer(prev: seq<TransferRequestRow>, ev: Change<TransferRequestRow>)
    : (r: seq<TransferRequestRow>)
    ensures ev.Insert? ==> r == [ev.row] + prev
    ensures ev.Update? ==> r == ReplaceById(prev, ev.row, TransferRequestId)
    ensures ev.Delete? ==> r == prev
  {
    Apply(TransferRequestsPolicy, TransferRequestId, prev, ev)
  }

  /** `if (result.data) setList(result.data)`: a null answer keeps the previous list. */
  function Refresh<T>(prev: seq<T>, data: Option<seq<T>>): (r: seq<T>)
    ensures data.Some? ==> r == data.value
    ensures data.None? ==> r == prev
  {
    if data.Some? then data.value else prev
  }

  /** The seven query answers of one fetch; `None` is a null `data`. */
  datatype FetchResults = FetchResults(
    inventory: Option<seq<InventoryRow>>,
    users: Option<seq<UserRow>>,
    issues: Option<seq<IssueRow>>,
    returnRequests: Option<seq<ReturnRequestRow>>,
    notifications: Option<seq<NotificationRow>>,
    authorizedStudents: Option<seq<AuthorizedStudentRow>>,
    transferRequests: Option<seq<TransferRequestRow>>)

  class LiveData {
    var inventory: seq<InventoryRow>
    var users: seq<UserRow>
    var issues: seq<IssueRow>
    var returnRequests: seq<ReturnRequestRow>
    var notifications: seq<NotificationRow>
    var authorizedStudents: seq<AuthorizedStudentRow>
    var transferRequests: seq<TransferRequestRow>
    var loading: bool

    constructor ()
      ensures inventory == [] && users == [] && issues == [] && returnRequests == []
      ensures notifications == [] && authorizedStudents == [] && transferRequests == []
      ensures loading
    {
      inventory, users, issues, returnRequests := [], [], [], [];
      notifications, authorizedStudents, transferRequests := [], [], [];
      loading := true;
    }

    /**
     * `fetchAllData` once its queries settle: `answers` is `None` when the
     * combined query threw, and then no list changes; otherwise each list is
     * replaced exactly when its answer carries data. Loading ends either way.
     */
    method ApplyFetch(answers: Option<FetchResults>)
      modifies this
      ensures !loading
      ensures answers.None? ==>
                inventory == old(inventory) && users == old(users) && issues == old(issues) &&
                returnRequests == old(returnRequests) && notifications == old(notifications) &&
                authorizedStudents == old(authorizedStudents) && transferRequests == old(transferRequests)
      ensures answers.Some? ==>
                inventory == Refresh(old(inventory), answers.value.inventory) &&
                users == Refresh(old(users), answers.value.users) &&
                issues == Refresh(old(issues), answers.value.issues) &&
                returnRequests == Refresh(old(returnRequests), answers.value.returnRequests) &&
                notifications == Refresh(old(notifications), answers.value.notifications) &&
                authorizedStudents == Refresh(old(authorizedStudents), answers.value.authorizedStudents) &&
                transferRequests == Refresh(old(transferRequests), answers.value.transferRequests)
    {
      if answers.Some? {
        var a := answers.value;
        inventory := Refresh(inventory, a.inventory);
        users := Refresh(users, a.users);
        issues := Refresh(issues, a.issues);
        returnRequests := Refresh(returnRequests, a.returnRequests);
        notifications := Refresh(notifications, a.notifications);
        authorizedStudents := Refresh(authorizedStudents, a.authorizedStudents);
        transferRequests := Refresh(transferRequests, a.transferRequests);
      }
      loading := false;
    }

    /** The inventory channel's handler; no other list changes. */
    method OnInventoryChange(ev: Change<InventoryRow>)
      modifies this`inventory
      ensures inventory == InventoryReducer(old(inventory), ev)
    {
      inventory := InventoryReducer(inventory, ev);
    }

    /** The issues channel's handler; no other list changes. */
    method OnIssuesChange(ev: Change<IssueRow>)
      modifies this`issues
      ensures issues == IssuesReducer(old(issues), ev)
    {
      issues := IssuesReducer(issues, ev);
    }

    /** The notifications channel's handler; no other list changes. */
    method OnNotificationsChange(ev: Change<NotificationRow>)
      modifies this`notifications
      ensures notifications == NotificationsReducer(old(notifications), ev)
    {
      notifications := NotificationsReducer(notifications, ev);
    }

    /** The return-requests channel's handler; no other list changes. */
    method OnReturnRequestsChange(ev: Change<ReturnRequestRow>)
      modifies this`returnRequests
      ensures returnRequests == ReturnRequestsReducer(old(returnRequests), ev)
    {
      returnRequests := ReturnRequestsReducer(returnRequests, ev);
    }

    /** The users channel's handler; no other list changes. */
    method OnUsersChange(ev: Change<UserRow>)
      modifies this`users
      ensures users == UsersReducer(old(users), ev)
    {
      users := UsersReducer(users, ev);
    }

    /** The authorized-students channel's handler; no other list changes. */
    method OnAuthorizedStudentsChange(ev: Change<AuthorizedStudentRow>)
      modifies this`authorizedStudents
      ensures authorizedStudents == AuthorizedStudentsReducer(old(authorizedStudents), ev)
    {
      authorizedStudents := AuthorizedStudentsReducer(authorizedStudents, ev);
    }

    /** The transfer-requests channel's handler; no other list changes. */
    method OnTransferRequestsChange(ev: Change<TransferRequestRow>)
      modifies this`transferRequests
      ensures transferRequests == TransferRequestsReducer(old(transferRequests), ev)
    {
      transferRequests := TransferRequestsReducer(transferRequests, ev);
    }
  }
}
