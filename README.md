# Hall-3 sports-equipment lending tracker: a Dafny model of its logic

The tracker is a single-page web application. Students sign up against an
admin-managed allow-list, sign in, borrow sports equipment, and pass items to
one another. An administrator keeps the inventory. Most of the application is
rendering and calls to a hosted database. This project models the parts that
make decisions:

- **The admin dashboard's lending ledger** (`ledger.dfy`, module `Ledger`).
  The class `Dashboard` holds the inventory list, the issue-record list and
  the two forms. Its methods add an item, delete an item, issue an item
  (which decrements `available` only when the first item with that id has
  `available > 0`) and return an issue (which marks the record returned and
  adds one to `available`, with no cap and no status check). Each method's
  postcondition gives the new lists as a function of the old ones. Lemmas
  about those functions cover the two dashboard statistics ("Available
  Items", the sum of `available`; "Currently Issued", the count of `issued`
  records), the issue-then-return round trip, and when `available >= 0` is
  kept.
- **The data hook's realtime reducers** (`realtime.dfy`, module `Realtime`).
  Seven local table copies live in the class `LiveData`. A fetch replaces a
  list only when its query returned data. Each table's change handler applies
  one transform per event, chosen by that table's `Policy`: prepend (append
  for authorized students) on INSERT, replace-by-id on UPDATE, filter-by-id
  on DELETE. Some tables ignore some event kinds. The row shapes are in
  `rows.dfy`.
- **Validators and lookups**: sign-up (`signup.dfy`), sign-in (`signin.dfy`),
  password change plus the profile's issue lists (`profile.dfy`), and the
  transfer dialog (`transfer_dialog.dfy`; its form state is the class
  `TransferForm`). Each decision returns a `Result` whose error is the first
  failing check, in the source's order.
- **Selectors**: the transfer-request bell (`transfer_notifications.dfy`) and
  the events dialog (`events.dfy`). These are filters, counts, first-match
  lookups, and the choice of which control a card shows.

Shared pieces: `lists.dfy` states JavaScript's `filter`, `map`, `find` and
`some` once, with their properties. `text.dfy` holds case-insensitive
comparison and the ten-digit phone pattern. `students.dfy` holds the student
record the account components receive.

What the model takes as inputs instead of computing:

- Record ids (`Date.now()`) and dates (`new Date()`) are parameters, named
  `freshId` and `today`.
- A callback the component would call (`onUserRegister`, `onUserLogin`,
  `onPasswordChange`, `onTransfer`, `registerForEvent`, Accept/Reject) becomes
  the value the model returns: the callback's arguments, or `None`/`Failure`
  when it is not called. The callback is called once, with that value, exactly
  when the result is a success.
- Whether the awaited `onTransfer` call succeeded is the `succeeded`
  parameter of `TransferForm.Settle`.
- A realtime payload is a `Change` value. A fetch's answers are a
  `FetchResults` value, or `None` when the query threw.

## Model

| member | source | states |
|---|---|---|
| `Ledger.Dashboard.constructor` | src/pages/Index.tsx:41-62 | Both lists start empty and both forms start blank, with condition "Good" as the default. |
| `Ledger.Dashboard.EditNewItem` | src/pages/Index.tsx:470-500 | The add-item form's inputs replace the form and change nothing else. |
| `Ledger.Dashboard.EditIssueForm` | src/pages/Index.tsx:575-610 | The issue form's inputs replace the form and change nothing else. |
| `Ledger.Dashboard.AddInventoryItem` | src/pages/Index.tsx:109-140 | Succeeds iff name and category are non-empty and quantity > 0. On success, exactly one new item is appended at the end and the form is cleared. Otherwise inventory and form are unchanged. Issues are never touched. |
| `Ledger.NewItemAccepted` | src/pages/Index.tsx:110 | The add-item guard: a name, a category and a positive quantity. The blank form that a successful add resets to is never accepted. |
| `Ledger.AddedItemIsIssuable` | src/pages/Index.tsx:110-129 | An item added from an accepted form has `available > 0`, so the issue dialog offers it at once. |
| `Ledger.NewInventoryItem` | src/pages/Index.tsx:119-127 | The new item carries the fresh id, today's date and the form's fields, and has `available == quantity`. |
| `Ledger.Dashboard.DeleteInventoryItem` | src/pages/Index.tsx:142-151 | The inventory becomes the items without that id. Issues and forms are unchanged. |
| `Ledger.RemoveItem` | src/pages/Index.tsx:143 | No remaining item has the id. Every item without the id remains. Nothing new appears. |
| `Ledger.RemoveItemConcat` | src/pages/Index.tsx:143 | Deletion keeps the surviving items in their original order. |
| `Ledger.RemoveAbsentItem` | src/pages/Index.tsx:143 | Deleting an id that no item carries leaves the inventory unchanged. |
| `Ledger.RemoveKeepsUniqueIds` | src/pages/Index.tsx:143 | Deleting keeps item ids pairwise distinct. |
| `Ledger.AddKeepsUniqueIds` | src/pages/Index.tsx:119-129 | Appending under an id no item carries keeps item ids pairwise distinct. |
| `Ledger.FindItem` | src/pages/Index.tsx:163 | Returns an item iff some item has the id. The returned item is the first with that id. |
| `Ledger.DecideIssue` | src/pages/Index.tsx:153-171 | Reports "fields missing" iff item, student name or student id is empty. Otherwise reports "unavailable" iff no item has the id or the first such item has `available <= 0`. Otherwise accepts that first item. |
| `Ledger.NewIssueRecord` | src/pages/Index.tsx:173-182 | The new record has status `issued`, no return date, the form's student, item id and notes, the item's name and today's date. |
| `Ledger.AdjustAvailable` | src/pages/Index.tsx:185-189 | Every item with the id has `available` moved by `delta`. No other item and no other field changes. The length is kept. |
| `Ledger.Dashboard.IssueItem` | src/pages/Index.tsx:153-205 | Returns `DecideIssue`'s verdict. On acceptance, `available` drops by exactly 1 on the item(s) with that id, exactly one `issued` record is appended, and the form is cleared. On any rejection nothing changes. |
| `Ledger.IssuableItems` | src/pages/Index.tsx:580 | The issue dialog offers exactly the items with `available > 0`. |
| `Ledger.OfferedItemIsAccepted` | src/pages/Index.tsx:575-586 | With unique ids and the other fields filled in, an offered item passes the issue guard. |
| `Ledger.IssueKeepsNoneNegative` | src/pages/Index.tsx:185-191 | With unique item ids, if no `available` is negative before an accepted issue, none is negative after it. |
| `Ledger.DuplicateIdsCanGoNegative` | src/pages/Index.tsx:163-189 | Concrete case: with two items sharing an id, the guard checks only the first, and the update drives the second to -1. So the previous lemma needs unique ids. |
| `Ledger.FindIssue` | src/pages/Index.tsx:208 | Returns a record iff some record has the id. The returned record is the first with that id. |
| `Ledger.MarkReturned` | src/pages/Index.tsx:211-215 | Every record with the id becomes `returned` with today's return date, whatever its prior status. Other records and other fields are unchanged. |
| `Ledger.Dashboard.ReturnItem` | src/pages/Index.tsx:207-232 | An unknown id is a no-op. Otherwise every record with the id is marked returned, and every item with the found record's item id gains 1 `available`. |
| `Ledger.ReturnIsUncapped` | src/pages/Index.tsx:207-221 | Concrete case: returning an already-returned record raises `available` above `quantity`. Neither the status nor the cap is checked. |
| `Ledger.AdjustAvailableUndo` | src/pages/Index.tsx:217-221 | Incrementing after decrementing the same id restores the inventory exactly. |
| `Ledger.IssueThenReturnRestores` | src/pages/Index.tsx:173-221 | After an accepted issue under a fresh record id, the return finds the new record, and its increment restores every item's original `available`. |
| `Ledger.UpdatesKeepIds` | src/pages/Index.tsx:185-221 | Issue and return updates keep item ids and record ids unique. |
| `Ledger.CurrentlyIssued` | src/pages/Index.tsx:423 | "Currently Issued" never exceeds the number of records. |
| `Ledger.AvailableItemsNonNegative` | src/pages/Index.tsx:411 | "Available Items" (`Ledger.AvailableItems`, the sum of `available` over the inventory) is not negative when no item's `available` is negative. |
| `Ledger.AvailableItemsAppend` | src/pages/Index.tsx:411 | Appending an item adds its `available` to "Available Items". |
| `Ledger.AvailableItemsAdjust` | src/pages/Index.tsx:411 | Moving `available` by `delta` on the items with an id moves "Available Items" by `delta` times the number of such items. |
| `Ledger.CurrentlyIssuedAppend` | src/pages/Index.tsx:423 | Appending an `issued` record adds 1 to "Currently Issued". Appending any other record adds nothing. |
| `Ledger.CurrentlyIssuedMarkReturned` | src/pages/Index.tsx:423 | Marking an id returned lowers "Currently Issued" by the number of still-issued records with that id. |
| `Ledger.IssueStatistics` | src/pages/Index.tsx:411-423 | With unique item ids, an accepted issue lowers "Available Items" by 1 and raises "Currently Issued" by 1. |
| `Ledger.ReturnStatistics` | src/pages/Index.tsx:411-423 | With unique ids, returning a still-issued record whose item exists raises "Available Items" by 1 and lowers "Currently Issued" by 1. |
| `Realtime.ReplaceById` | src/hooks/useSupabaseData.ts:73-75 | The length is kept. Every row with the new row's id becomes the new row. Every other row is unchanged. |
| `Realtime.ReplaceAbsentIsIdentity` | src/hooks/useSupabaseData.ts:73-75 | An UPDATE for an id the list does not hold is dropped, never inserted. |
| `Realtime.ReplaceIdempotent` | src/hooks/useSupabaseData.ts:92-94 | Applying the same UPDATE twice equals applying it once. |
| `Realtime.ReplaceHoldsNewRow` | src/hooks/useSupabaseData.ts:109-111 | After an UPDATE of a held id, the new row is in the list. |
| `Realtime.RemoveById` | src/hooks/useSupabaseData.ts:77 | No remaining row has the id, every row without it remains, and nothing new appears. |
| `Realtime.RemoveByIdConcat` | src/hooks/useSupabaseData.ts:113 | A DELETE keeps the surviving rows in their original order. |
| `Realtime.RemoveAbsentIsIdentity` | src/hooks/useSupabaseData.ts:77 | A DELETE for an id the list does not hold changes nothing. |
| `Realtime.ApplySizes` | src/hooks/useSupabaseData.ts:70-78 | Under any policy, an INSERT adds exactly the new row (length +1, multiset plus that row), an UPDATE keeps the length, and a DELETE never grows the list. |
| `Realtime.InventoryReducer` | src/hooks/useSupabaseData.ts:70-78 | Inventory: INSERT prepends, UPDATE replaces by id, DELETE filters by id. |
| `Realtime.IssuesReducer` | src/hooks/useSupabaseData.ts:89-95 | Issues: INSERT prepends, UPDATE replaces by id, DELETE leaves the list unchanged. |
| `Realtime.NotificationsReducer` | src/hooks/useSupabaseData.ts:106-114 | Notifications: INSERT prepends, UPDATE replaces by id, DELETE filters by id. |
| `Realtime.ReturnRequestsReducer` | src/hooks/useSupabaseData.ts:125-131 | Return requests: INSERT prepends, UPDATE replaces by id, DELETE leaves the list unchanged. |
| `Realtime.UsersReducer` | src/hooks/useSupabaseData.ts:142-144 | Users: INSERT prepends. UPDATE and DELETE leave the list unchanged. |
| `Realtime.AuthorizedStudentsReducer` | src/hooks/useSupabaseData.ts:155-157 | Authorized students: INSERT appends at the end. UPDATE and DELETE leave the list unchanged. |
| `Realtime.TransferRequestsReducer` | src/hooks/useSupabaseData.ts:168-174 | Transfer requests: INSERT prepends, UPDATE replaces by id, DELETE leaves the list unchanged. |
| `Realtime.Refresh` | src/hooks/useSupabaseData.ts:49-55 | Non-null data replaces the list. Null data keeps the previous list. |
| `Realtime.LiveData.constructor` | src/hooks/useSupabaseData.ts:14-21 | All seven lists start empty and loading is on. |
| `Realtime.LiveData.ApplyFetch` | src/hooks/useSupabaseData.ts:29-61 | If the query threw, no list changes. Otherwise each list is refreshed from its own answer. Loading ends either way. |
| `Realtime.LiveData.OnInventoryChange` | src/hooks/useSupabaseData.ts:67-79 | Applies the inventory reducer. Its frame lets no other list change. |
| `Realtime.LiveData.OnIssuesChange` | src/hooks/useSupabaseData.ts:86-96 | Applies the issues reducer. No other list changes. |
| `Realtime.LiveData.OnNotificationsChange` | src/hooks/useSupabaseData.ts:103-115 | Applies the notifications reducer. No other list changes. |
| `Realtime.LiveData.OnReturnRequestsChange` | src/hooks/useSupabaseData.ts:122-132 | Applies the return-requests reducer. No other list changes. |
| `Realtime.LiveData.OnUsersChange` | src/hooks/useSupabaseData.ts:139-145 | Applies the users reducer. No other list changes. |
| `Realtime.LiveData.OnAuthorizedStudentsChange` | src/hooks/useSupabaseData.ts:152-158 | Applies the authorized-students reducer. No other list changes. |
| `Realtime.LiveData.OnTransferRequestsChange` | src/hooks/useSupabaseData.ts:165-175 | Applies the transfer-requests reducer. No other list changes. |
| `Text.LowerChar` | src/components/UserSignup.tsx:72 | Maps ASCII capitals to their lower-case letters and leaves every other character unchanged. |
| `Text.Lower` | src/components/UserSignup.tsx:72 | Lower-casing keeps the length and acts character by character. |
| `Text.IsTenDigitPhone` | src/components/UserSignup.tsx:61 | True iff the string is exactly 10 characters long and every character is in 0-9. |
| `Signup.IsAuthorized` | src/components/UserSignup.tsx:71-74 | True iff some allow-list entry matches both roll number and name, ignoring case. |
| `Signup.RollTaken` | src/components/UserSignup.tsx:86 | True iff some existing user's roll number equals the form's, ignoring case. |
| `Signup.HandleSignup` | src/components/UserSignup.tsx:50-105 | Each error is reported iff every earlier check passed and its own failed: missing field, bad phone, not authorized, duplicate roll. On success the user copies the form verbatim, not lower-cased, with the fresh id and date. |
| `Signup.SignupAvoidsDuplicates` | src/components/UserSignup.tsx:86-93 | A registered user's roll number collides with no existing user's, ignoring case. |
| `Signup.SecondSignupRefused` | src/components/UserSignup.tsx:86-93 | After a registration, signing up again with that roll number in any letter case is refused. |
| `Signin.HandleSignin` | src/components/UserSignin.tsx:39-63 | An empty roll number or password fails before any lookup. Otherwise the result is the first user, in list order, with a case-insensitive roll match and an exact password match. It fails iff no user matches. |
| `Signin.PasswordIsCaseSensitive` | src/components/UserSignin.tsx:49-52 | For every user and every typed password that differs from the stored one but equals it ignoring case, sign-in is refused. |
| `Signin.RollNumberIgnoresCase` | src/components/UserSignin.tsx:49-52 | A lower-cased roll number still finds its user. |
| `Profile.UserIssues` | src/components/UserProfile.tsx:61 | Holds exactly the records whose student id equals the user's roll number, compared exactly. |
| `Profile.ActiveIssues` | src/components/UserProfile.tsx:62 | Holds exactly the user's records with status `issued`, and is a sub-list of `UserIssues`. |
| `Profile.ProfileListsKeepOrder` | src/components/UserProfile.tsx:61-62 | Both lists follow the order of the issue list. |
| `Profile.HandlePasswordChange` | src/components/UserProfile.tsx:64-101 | Each error is reported iff every earlier check passed and its own failed: empty field, wrong current password, mismatch, fewer than 4 characters. Only when all pass is the change `(user.id, newPassword)` produced. |
| `TransferNotifications.UserTransferNotifications` | src/components/TransferNotifications.tsx:32-38 | Holds exactly the notifications of type `transfer_request` whose object payload has `to_user_id` equal, as a string, to the viewer's roll number. It is empty without a viewer. |
| `TransferNotifications.UserTransferNotificationsConcat` | src/components/TransferNotifications.tsx:32-38 | The viewer's list keeps the feed's order. |
| `TransferNotifications.UnreadCount` | src/components/TransferNotifications.tsx:40 | Counts the unread notifications of the viewer's list. It is at most that list's length and 0 without a viewer. |
| `TransferNotifications.AllReadMeansNoneUnread` | src/components/TransferNotifications.tsx:40 | When every notification is read, the unread count is 0. |
| `TransferNotifications.LinkedRequest` | src/components/TransferNotifications.tsx:72-77 | Returns the first request whose id equals the payload's `transfer_id`. It returns none iff no request matches. |
| `TransferNotifications.OfferFor` | src/components/TransferNotifications.tsx:97-130 | Accept/Reject appears iff the linked request is pending, and acts on its id. The status badge appears iff the linked request is not pending. Neither appears without a link. |
| `TransferNotifications.Cards` | src/components/TransferNotifications.tsx:71-133 | One card per notification, in order, each with its unread highlight and its offer. |
| `TransferNotifications.Render` | src/components/TransferNotifications.tsx:42-139 | Without a viewer there is nothing. Otherwise the cards come from the viewer's list, and the badge is shown iff the unread count is positive, showing that count. |
| `Events.IsUserRegistered` | src/components/EventNotifications.tsx:76-81 | False without a user. Otherwise true iff some registration has this event id and the user's roll number. |
| `Events.RegistrationCount` | src/components/EventNotifications.tsx:83-85 | Counts registrations with the event id. It is at most the total and positive when any exists. |
| `Events.RegistrationCountAppend` | src/components/EventNotifications.tsx:84 | A new registration adds 1 to its own event's count and nothing to any other event's. |
| `Events.RegisteredImpliesCounted` | src/components/EventNotifications.tsx:76-85 | A registered user's event has at least one registration. |
| `Events.IsFull` | src/components/EventNotifications.tsx:222 | Full iff the maximum is non-null, non-zero, and at most the count. A null or zero maximum is never full. |
| `Events.ControlFor` | src/components/EventNotifications.tsx:285-302 | A registered user sees the badge. Another signed-in user sees Register, disabled iff the event is full. Without a user, the sign-in prompt shows. |
| `Events.RegisterRequest` | src/components/EventNotifications.tsx:66-74 | No call without a user. Otherwise one call with the event id and the user's roll number and name. |
| `Events.RegisteringRegisters` | src/components/EventNotifications.tsx:66-81 | A registration made from that call makes the user registered for the event. |
| `TransferDialog.RecipientOptions` | src/components/TransferDialog.tsx:125 | Holds exactly the users whose id differs from the current user's. |
| `TransferDialog.TransferArguments` | src/components/TransferDialog.tsx:49-79 | An error iff there is no item or no selection. Then an error iff no user has the selected id. Otherwise the call carries the item's id and name, the sender's id and name, the first matching user's id and name, and the notes. |
| `TransferDialog.OfferedRecipientIsNotSender` | src/components/TransferDialog.tsx:120-131 | Choosing an offered recipient always produces a call whose recipient is not the sender. |
| `TransferDialog.TransferForm.constructor` | src/components/TransferDialog.tsx:44-46 | The dialog starts with no selection, empty notes and no submission in flight. |
| `TransferDialog.TransferForm.SendDisabled` | src/components/TransferDialog.tsx:154 | Send is enabled only when a recipient is chosen and no submission is in flight. While a submission is in flight, Send stays disabled. |
| `TransferDialog.TransferForm.EnabledSendHasSelection` | src/components/TransferDialog.tsx:50-57 | While Send is enabled, a dialog that shows an item never fails with "nothing selected". |
| `TransferDialog.TransferForm.Select` | src/components/TransferDialog.tsx:120 | Choosing a recipient sets only the selection. |
| `TransferDialog.TransferForm.EditNotes` | src/components/TransferDialog.tsx:138 | Typing sets only the notes. |
| `TransferDialog.TransferForm.Submit` | src/components/TransferDialog.tsx:49-69 | A validation error changes nothing. A valid form puts the submission in flight, which disables Send, and returns the call for `onTransfer`. |
| `TransferDialog.TransferForm.Settle` | src/components/TransferDialog.tsx:70-97 | On success, selection and notes are cleared and the dialog closes. On failure they are kept. Either way the submission ends. |

## Left out

- Admin login with a hard-coded credential, the auth flag and `localStorage`
  loading and saving (src/pages/Index.tsx:64-107 and the `setItem` calls):
  these are storage I/O and a secret literal. The dashboard starts from
  whatever lists the constructor or earlier calls left.
- The inventory card's Edit button (src/pages/Index.tsx:539) only stores the
  item in a state that nothing reads, so there is no edit operation to model.
- CSV export (src/pages/Index.tsx:234-275): Blob, URL and download side
  effects. Its unescaped row joining admits no round trip worth stating.
- All backend access in the data hook: queries, channel subscription and
  cleanup, and the insert, update and delete wrappers
  (src/hooks/useSupabaseData.ts:23-47, 179-189, 191-265). The server-side
  `created_at` ordering of fetched lists is not modelled either. The whole of
  src/hooks/useEvents.ts is left out; its already-registered check is a
  remote read followed by a write.
- src/components/NotificationsDialog.tsx only renders and dispatches
  callbacks, so it is not part of this model.
- The approve/reject effects for returns and transfers, which touch several
  tables: those handlers are not part of the files modelled, and the model
  does not invent them. Accept/Reject appear only as the id handed to the
  callback (`TransferNotifications.OfferFor`).
- The add-event handler, the admin's delete-event button and the
  upcoming-events date filter (src/components/EventNotifications.tsx:44-64,
  87, 233). The first two are backend calls, the first behind a title/date
  guard. The third needs the clock.
- Ledger.Dashboard.EditNewItem: takes the quantity already parsed. The
  text-to-number step, where an unparsable entry becomes 0, is not modelled.
- Clock and id generation (`Date.now()`, `new Date()`): these are
  parameters.
- Toasts, dialog open/close props other than the transfer dialog's close
  request, the sign-up, sign-in and password forms' reset after success, and
  all rendering other than the choices modelled above.
- Async sequencing and concurrency. The transfer dialog's await is modelled
  as `Submit` followed by `Settle`. Nothing else interleaves.
- Text.Lower: does not model JavaScript's Unicode-aware `toLowerCase`.
  Only ASCII capitals are lowered, so two roll numbers or names that differ
  only by non-ASCII letter case compare unequal here.
- Profile.HandlePasswordChange: measures the new password in Unicode
  scalar values (Dafny `char`), not UTF-16 code units. A password containing
  characters outside the Basic Multilingual Plane is counted shorter than
  JavaScript counts it.
- Ledger.IssueKeepsNoneNegative: the non-negativity of `available` is
  proved only for inventories with unique item ids. `Ledger.DuplicateIdsCanGoNegative`
  shows that without unique ids the property fails.
- The ledger's `quantity` and `available` and an event's
  `max_participants` are unbounded integers here. In the source they are
  JavaScript numbers, which are doubles. Above 2^53, adding or subtracting 1
  no longer changes the value by one, and that rounding is not modelled.
- JSON numbers in notification payloads are integers here. Floating point is
  not modelled. Only string equality with payload fields is ever needed.
- The invariant `available <= quantity` is not modelled as holding, because
  the source does not keep it (`Ledger.ReturnIsUncapped`).
- What the model leaves to the caller: `Ledger.Dashboard`'s methods and
  `Realtime.LiveData`'s handlers require nothing. Their contracts say what
  each call does to whatever lists are present, including lists with
  duplicate ids.
