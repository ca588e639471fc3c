/**
 * The transfer dialog: a recipient chosen from the other users, optional
 * notes, and a submit handler that validates, calls the transfer callback
 * and, once the call settles, clears the form on success and keeps it on
 * failure.
 */
module TransferDialog {
  import opened Lists

  datatype DialogUser = DialogUser(id: string, rollNumber: string, name: string, phoneNumber: string, roomNumber: string)

  datatype DialogItem = DialogItem(id: string, name: string, category: string, quantity: int, available: int)

  /** The arguments of `onTransfer(itemId, itemName, fromUserId, fromUserName, toUserId, toUserName, notes)`. */
  datatype TransferCall = TransferCall(
    itemId: string, itemName: string, fromUserId: string, fromUserName: string,
    toUserId: string, toUserName: string, notes: string)

  datatype TransferError = NothingSelected | RecipientNotFound

  /** `users.filter(u => u.id !== currentUser.id)`: the recipient options. */
  function RecipientOptions(users: seq<DialogUser>, currentUser: DialogUser): (r: seq<DialogUser>)
    ensures forall k :: 0 <= k < |r| ==> r[k] in users && r[k].id != currentUser.id
    ensures forall k :: 0 <= k < |users| && users[k].id != currentUser.id ==> users[k] in r
  {
    Filter(users, (u: DialogUser) => u.id != currentUser.id)
  }

  /**
   * The validation and argument construction of `handleTransfer`: no item
   * or no selection is an error, then a selection no user has, else the
   * call carries the item, the sender, the first user with the selected
   * id as recipient, and the notes.
   */
  function TransferArguments(item: Option<DialogItem>, selectedUserId: string, currentUser: DialogUser,
                             users: seq<DialogUser>, notes: string): (r: Result<TransferCall, TransferError>)
    ensures r == Failure(NothingSelected) <==> item.None? || selectedUserId == ""
    ensures r == Failure(RecipientNotFound) <==>
              item.Some? && selectedUserId != "" && forall k :: 0 <= k < |users| ==> users[k].id != selectedUserId
    ensures r.Success? ==>
              exists k :: 0 <= k < |users| && users[k].id == selectedUserId &&
                          (forall j :: 0 <= j < k ==> users[j].id != selectedUserId) &&
                          r.value == TransferCall(item.value.id, item.value.name, currentUser.id, currentUser.name,
                                                  users[k].id, users[k].name, notes)
  {
    if item.None? || selectedUserId == "" then Failure(NothingSelected)
    else match Find(users, (u: DialogUser) => u.id == selectedUserId)
      case None => Failure(RecipientNotFound)
      case Some(to) =>
        Success(TransferCall(item.value.id, item.value.name, currentUser.id, currentUser.name,
                             to.id, to.name, notes))
  }

  /** Choosing from the offered options never sends an item to its holder. */
  lemma OfferedRecipientIsNotSender(item: DialogItem, selected: DialogUser, currentUser: DialogUser,
                                    users: seq<DialogUser>, notes: string)
    requires selected in RecipientOptions(users, currentUser) && selected.id != ""
    ensures TransferArguments(Some(item), selected.id, currentUser, users, notes).Success?
    ensures TransferArguments(Some(item), selected.id, currentUser, users, notes).value.toUserId != currentUser.id
  {
    var opts := RecipientOptions(users, currentUser);
    var i :| 0 <= i < |opts| && opts[i] == selected;
    var k :| 0 <= k < |users| && users[k] == selected;
    assert users[k].id == selected.id;
  }

  /** The dialog's own state. */
  class TransferForm {
    var selectedUserId: string
    var notes: string
    var isSubmitting: bool

    constructor ()
      ensures selectedUserId == "" && notes == "" && !isSubmitting
    {
      selectedUserId, notes, isSubmitting := "", "", false;
    }

    /** `disabled={!selectedUserId || isSubmitting}` on the Send button. */
    predicate SendDisabled()
      reads this
      ensures !SendDisabled() ==> selectedUserId != "" && !isSubmitting
      ensures isSubmitting ==> SendDisabled()
    {
      selectedUserId == "" || isSubmitting
    }

    /** While Send is enabled, a dialog showing an item never reports that nothing is selected. */
    lemma EnabledSendHasSelection(item: DialogItem, currentUser: DialogUser, users: seq<DialogUser>)
      requires !SendDisabled()
      ensures TransferArguments(Some(item), selectedUserId, currentUser, users, notes) != Failure(NothingSelected)
    {
    }

    /** The recipient select's change handler. */
    method Select(userId: string)
      modifies this`selectedUserId
      ensures selectedUserId == userId
    {
      selectedUserId := userId;
    }

    /** The notes field's change handler. */
    method EditNotes(text: string)
      modifies this`notes
      ensures notes == text
    {
      notes := text;
    }

    /**
     * `handleTransfer` up to the awaited call: a validation error changes
     * nothing; otherwise the submission is in flight and the returned call
     * is what `onTransfer` receives.
     */
    method Submit(item: Option<DialogItem>, currentUser: DialogUser, users: seq<DialogUser>)
      returns (r: Result<TransferCall, TransferError>)
      modifies this`isSubmitting
      ensures r == TransferArguments(item, selectedUserId, currentUser, users, notes)
      ensures r.Success? ==> isSubmitting && SendDisabled()
      ensures r.Failure? ==> isSubmitting == old(isSubmitting)
    {
      r := TransferArguments(item, selectedUserId, currentUser, users, notes);
      if r.Success? {
        isSubmitting := true;
      }
    }

    /**
     * The rest of `handleTransfer` once `onTransfer` settles: on success the
     * selection and notes are cleared and the dialog asks to close; on
     * failure they are kept. Either way the submission is over.
     */
    method Settle(succeeded: bool) returns (close: bool)
      modifies this
      ensures !isSubmitting
      ensures close == succeeded
      ensures succeeded ==> selectedUserId == "" && notes == ""
      ensures !succeeded ==> selectedUserId == old(selectedUserId) && notes == old(notes)
    {
      if succeeded {
        selectedUserId := "";
        notes := "";
      }
      isSubmitting := false;
      close := succeeded;
    }
  }
}
