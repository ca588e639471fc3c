/**
 * The admin dashboard's in-memory lending ledger: an inventory list and an
 * issue-record list, changed by adding and deleting items, issuing an item
 * to a student and marking an issue returned, plus the two statistics shown
 * on the dashboard ("Available Items" and "Currently Issued").
 *
 * Record ids and dates come from the clock in the dashboard; here they are
 * parameters (`freshId`, `today`).
 */
module Ledger {
  import opened Lists

  datatype Status = Issued | Returned

  datatype InventoryItem = InventoryItem(
    id: string, name: string, category: string,
    quantity: int, available: int, condition: string, addedDate: string)

  datatype IssueRecord = IssueRecord(
    id: string, itemId: string, itemName: string,
    studentName: string, studentId: string, issueDate: string,
    returnDate: Option<string>, status: Status, notes: string)

  /** The "add item" form. */
  datatype NewItemForm = NewItemForm(name: string, category: string, quantity: int, condition: string)

  /** The "issue item" form. */
  datatype IssueForm = IssueForm(itemId: string, studentName: string, studentId: string, notes: string)

  const BlankNewItem := NewItemForm("", "", 0, "Good")
  const BlankIssueForm := IssueForm("", "", "", "")

  // ---------------------------------------------------------------------------
  // Adding and deleting items

  /** The add-item guard: a name, a category and a positive quantity. */
  predicate NewItemAccepted(f: NewItemForm)
    ensures NewItemAccepted(f) ==> f != BlankNewItem
  {
    f.name != "" && f.category != "" && f.quantity > 0
  }

  /** The record built from an accepted form; it starts fully available. */
  function NewInventoryItem(f: NewItemForm, id: string, today: string): (item: InventoryItem)
    ensures item.id == id && item.addedDate == today
    ensures item.name == f.name && item.category == f.category && item.condition == f.condition
    ensures item.available == item.quantity == f.quantity
  {
    InventoryItem(id, f.name, f.category, f.quantity, f.quantity, f.condition, today)
  }

  /** `inventory.filter(item => item.id !== id)`. */
  function RemoveItem(inventory: seq<InventoryItem>, id: string): (r: seq<InventoryItem>)
    ensures |r| <= |inventory|
    ensures forall k :: 0 <= k < |r| ==> r[k].id != id && r[k] in inventory
    ensures forall k :: 0 <= k < |inventory| && inventory[k].id != id ==> inventory[k] in r
  {
    Filter(inventory, (i: InventoryItem) => i.id != id)
  }

  /** Deleting keeps the surviving items in their order. */
  lemma RemoveItemConcat(a: seq<InventoryItem>, b: seq<InventoryItem>, id: string)
    ensures RemoveItem(a + b, id) == RemoveItem(a, id) + RemoveItem(b, id)
  {
    FilterConcat(a, b, (i: InventoryItem) => i.id != id);
  }

  /** Deleting an id no item carries changes nothing. */
  lemma RemoveAbsentItem(inventory: seq<InventoryItem>, id: string)
    requires forall k :: 0 <= k < |inventory| ==> inventory[k].id != id
    ensures RemoveItem(inventory, id) == inventory
  {
    FilterKeepsAll(inventory, (i: InventoryItem) => i.id != id);
  }

  // ---------------------------------------------------------------------------
  // Issuing and returning

  /** `inventory.find(i => i.id === id)`. */
  function FindItem(inventory: seq<InventoryItem>, id: string): (r: Option<InventoryItem>)
    ensures r.Some? <==> exists k :: 0 <= k < |inventory| && inventory[k].id == id
    ensures r.Some? ==> r.value.id == id && r.value in inventory
    ensures r.Some? ==> exists k :: 0 <= k < |inventory| && inventory[k] == r.value
                          && forall j :: 0 <= j < k ==> inventory[j].id != id
  {
    Find(inventory, (i: InventoryItem) => i.id == id)
  }

  /** `issues.find(i => i.id === id)`. */
  function FindIssue(issues: seq<IssueRecord>, id: string): (r: Option<IssueRecord>)
    ensures r.Some? <==> exists k :: 0 <= k < |issues| && issues[k].id == id
    ensures r.Some? ==> r.value.id == id && r.value in issues
    ensures r.Some? ==> exists k :: 0 <= k < |issues| && issues[k] == r.value
                          && forall j :: 0 <= j < k ==> issues[j].id != id
  {
    Find(issues, (i: IssueRecord) => i.id == id)
  }

  /**
   * `inventory.map(i => i.id === id ? { ...i, available: i.available + delta } : i)`:
   * every item carrying the id has its `available` moved by `delta`; nothing
   * else about any item changes.
   */
  function AdjustAvailable(inventory: seq<InventoryItem>, id: string, delta: int): (r: seq<InventoryItem>)
    ensures |r| == |inventory|
    ensures forall k :: 0 <= k < |inventory| ==>
              r[k].available == inventory[k].available + (if inventory[k].id == id then delta else 0)
    ensures forall k :: 0 <= k < |inventory| ==> r[k].(available := inventory[k].available) == inventory[k]
  {
    Map(inventory, (i: InventoryItem) => if i.id == id then i.(available := i.available + delta) else i)
  }

  /**
   * `issues.map(i => i.id === id ? { ...i, status: 'returned', returnDate: date } : i)`:
   * every record carrying the id becomes returned on `date`, whatever its
   * previous status; nothing else about any record changes.
   */
  function MarkReturned(issues: seq<IssueRecord>, id: string, date: string): (r: seq<IssueRecord>)
    ensures |r| == |issues|
    ensures forall k :: 0 <= k < |issues| && issues[k].id == id ==>
              r[k].status == Returned && r[k].returnDate == Some(date)
    ensures forall k :: 0 <= k < |issues| ==>
              r[k].(status := issues[k].status, returnDate := issues[k].returnDate) == issues[k]
    ensures forall k :: 0 <= k < |issues| && issues[k].id != id ==> r[k] == issues[k]
  {
    Map(issues, (i: IssueRecord) => if i.id == id then i.(status := Returned, returnDate := Some(date)) else i)
  }

  /** What the issue handler decides before it changes anything. */
  datatype IssueDecision = FieldsMissing | ItemUnavailable | Accept(item: InventoryItem)

  /**
   * The two guards of the issue handler, in order: all of item, student
   * name and student id filled in; then the first item with that id exists
   * and has `available > 0`.
   */
  function DecideIssue(inventory: seq<InventoryItem>, form: IssueForm): (d: IssueDecision)
    ensures d == FieldsMissing <==> form.itemId == "" || form.studentName == "" || form.studentId == ""
    ensures d == ItemUnavailable <==>
              form.itemId != "" && form.studentName != "" && form.studentId != "" &&
              (FindItem(inventory, form.itemId).None? || FindItem(inventory, form.itemId).value.available <= 0)
    ensures d.Accept? ==> d.item == FindItem(inventory, form.itemId).value
    ensures d.Accept? ==> d.item.id == form.itemId && d.item.available > 0 && d.item in inventory
  {
    if form.itemId == "" || form.studentName == "" || form.studentId == "" then FieldsMissing
    else match FindItem(inventory, form.itemId)
      case None => ItemUnavailable
      case Some(item) => if item.available <= 0 then ItemUnavailable else Accept(item)
  }

  /** The record appended by a successful issue. */
  function NewIssueRecord(form: IssueForm, item: InventoryItem, id: string, today: string): (r: IssueRecord)
    ensures r.id == id && r.itemId == form.itemId && r.itemName == item.name
    ensures r.studentName == form.studentName && r.studentId == form.studentId && r.notes == form.notes
    ensures r.issueDate == today && r.returnDate.None? && r.status == Issued
  {
    IssueRecord(id, form.itemId, item.name, form.studentName, form.studentId, today, None, Issued, form.notes)
  }

  /** The items the issue dialog offers: `inventory.filter(item => item.available > 0)`. */
  function IssuableItems(inventory: seq<InventoryItem>): (r: seq<InventoryItem>)
    ensures forall k :: 0 <= k < |r| ==> r[k].available > 0 && r[k] in inventory
    ensures forall k :: 0 <= k < |inventory| && inventory[k].available > 0 ==> inventory[k] in r
  {
    Filter(inventory, (i: InventoryItem) => i.available > 0)
  }

  // ---------------------------------------------------------------------------
  // Statistics

  /** "Available Items": `inventory.reduce((sum, item) => sum + item.available, 0)`. */
  function AvailableItems(inventory: seq<InventoryItem>): (total: int)
  {
    if inventory == [] then 0 else inventory[0].available + AvailableItems(inventory[1..])
  }

  /** "Currently Issued": `issues.filter(i => i.status === 'issued').length`. */
  function CurrentlyIssued(issues: seq<IssueRecord>): (n: nat)
    ensures n <= |issues|
  {
    |Filter(issues, (i: IssueRecord) => i.status == Issued)|
  }

  /** How many items carry the id. */
  function ItemsWithId(inventory: seq<InventoryItem>, id: string): (n: nat)
    ensures n <= |inventory|
  {
    |Filter(inventory, (i: InventoryItem) => i.id == id)|
  }

  /** How many records carry the id and are still issued. */
  function IssuedWithId(issues: seq<IssueRecord>, id: string): (n: nat)
    ensures n <= |issues|
  {
    |Filter(issues, (i: IssueRecord) => i.id == id && i.status == Issued)|
  }

  /** With no negative `available`, "Available Items" is not negative either. */
  lemma {:induction false} AvailableItemsNonNegative(inventory: seq<InventoryItem>)
    requires NoneNegative(inventory)
    ensures AvailableItems(inventory) >= 0
  {
    if inventory != [] {
      assert NoneNegative(inventory[1..]) by {
        forall k | 0 <= k < |inventory[1..]|
          ensures inventory[1..][k].available >= 0
        {
          assert inventory[1..][k] == inventory[k + 1];
        }
      }
      AvailableItemsNonNegative(inventory[1..]);
    }
  }

  /** Appending an item adds its `available` to the total. */
  lemma {:induction false} AvailableItemsAppend(inventory: seq<InventoryItem>, item: InventoryItem)
    ensures AvailableItems(inventory + [item]) == AvailableItems(inventory) + item.available
  {
    if inventory != [] {
      assert (inventory + [item])[1..] == inventory[1..] + [item];
      AvailableItemsAppend(inventory[1..], item);
    }
  }

  /** The first item of an adjusted inventory, and the adjusted rest. */
  lemma AdjustAvailableCons(inventory: seq<InventoryItem>, id: string, delta: int)
    requires inventory != []
    ensures AdjustAvailable(inventory, id, delta)[1..] == AdjustAvailable(inventory[1..], id, delta)
    ensures AdjustAvailable(inventory, id, delta)[0].available
              == inventory[0].available + (if inventory[0].id == id then delta else 0)
  {
  }

  /** Counting items with an id, one item at a time. */
  lemma ItemsWithIdCons(inventory: seq<InventoryItem>, id: string)
    requires inventory != []
    ensures ItemsWithId(inventory, id) == (if inventory[0].id == id then 1 else 0) + ItemsWithId(inventory[1..], id)
  {
    var p := (i: InventoryItem) => i.id == id;
    assert Filter(inventory, p) == (if p(inventory[0]) then [inventory[0]] else []) + Filter(inventory[1..], p);
  }

  /** Moving `available` by `delta` on every item with the id moves the total by `delta` per such item. */
  lemma {:induction false} AvailableItemsAdjust(inventory: seq<InventoryItem>, id: string, delta: int)
    ensures AvailableItems(AdjustAvailable(inventory, id, delta))
              == AvailableItems(inventory) + delta * ItemsWithId(inventory, id)
  {
    if inventory == [] {
      assert ItemsWithId(inventory, id) == 0;
    } else {
      var r := AdjustAvailable(inventory, id, delta);
      AdjustAvailableCons(inventory, id, delta);
      ItemsWithIdCons(inventory, id);
      AvailableItemsAdjust(inventory[1..], id, delta);
      var here := if inventory[0].id == id then 1 else 0;
      Distribute(delta, here, ItemsWithId(inventory[1..], id));
    }
  }

  lemma Distribute(delta: int, here: int, rest: int)
    ensures delta * (here + rest) == delta * here + delta * rest
  {
  }

  /** Appending a record with status `issued` adds one to "Currently Issued". */
  lemma CurrentlyIssuedAppend(issues: seq<IssueRecord>, r: IssueRecord)
    ensures CurrentlyIssued(issues + [r]) == CurrentlyIssued(issues) + (if r.status == Issued then 1 else 0)
  {
    var p := (i: IssueRecord) => i.status == Issued;
    FilterConcat(issues, [r], p);
    assert Filter([r], p) == (if p(r) then [r] else []) + Filter([r][1..], p);
  }

  /** Marking an id returned takes every still-issued record with that id out of "Currently Issued". */
  lemma {:induction false} CurrentlyIssuedMarkReturned(issues: seq<IssueRecord>, id: string, date: string)
    ensures CurrentlyIssued(MarkReturned(issues, id, date)) == CurrentlyIssued(issues) - IssuedWithId(issues, id)
  {
    if issues != [] {
      var r := MarkReturned(issues, id, date);
      assert r[1..] == MarkReturned(issues[1..], id, date);
      var p := (i: IssueRecord) => i.status == Issued;
      var q := (i: IssueRecord) => i.id == id && i.status == Issued;
      assert Filter(r, p) == (if p(r[0]) then [r[0]] else []) + Filter(r[1..], p);
      assert Filter(issues, p) == (if p(issues[0]) then [issues[0]] else []) + Filter(issues[1..], p);
      assert Filter(issues, q) == (if q(issues[0]) then [issues[0]] else []) + Filter(issues[1..], q);
      CurrentlyIssuedMarkReturned(issues[1..], id, date);
    }
  }

  // ---------------------------------------------------------------------------
  // Properties of the lending operations

  /** No two items share an id. */
  predicate UniqueIds(inventory: seq<InventoryItem>)
  {
    forall i, j :: 0 <= i < j < |inventory| ==> inventory[i].id != inventory[j].id
  }

  /** No item has a negative `available`. */
  predicate NoneNegative(inventory: seq<InventoryItem>)
  {
    forall k :: 0 <= k < |inventory| ==> inventory[k].available >= 0
  }

  /** With unique ids, an id that is present is carried by exactly one item. */
  lemma {:induction false} ItemsWithIdUnique(inventory: seq<InventoryItem>, id: string)
    requires UniqueIds(inventory)
    requires FindItem(inventory, id).Some?
    ensures ItemsWithId(inventory, id) == 1
  {
    var p := (i: InventoryItem) => i.id == id;
    assert Filter(inventory, p) == (if p(inventory[0]) then [inventory[0]] else []) + Filter(inventory[1..], p);
    if inventory[0].id == id {
      FilterKeepsNone(inventory[1..], p);
    } else {
      ItemsWithIdUnique(inventory[1..], id);
    }
  }

  /**
   * A successful issue, with unique item ids, keeps every `available`
   * non-negative: only the checked item is decremented, and it had at least 1.
   */
  lemma IssueKeepsNoneNegative(inventory: seq<InventoryItem>, form: IssueForm)
    requires UniqueIds(inventory) && NoneNegative(inventory)
    requires DecideIssue(inventory, form).Accept?
    ensures NoneNegative(AdjustAvailable(inventory, form.itemId, -1))
  {
    var r := AdjustAvailable(inventory, form.itemId, -1);
    var item := DecideIssue(inventory, form).item;
    forall k | 0 <= k < |inventory|
      ensures r[k].available >= 0
    {
      if inventory[k].id == form.itemId {
        var m :| 0 <= m < |inventory| && inventory[m] == item
                 && forall j :: 0 <= j < m ==> inventory[j].id != form.itemId;
        assert k == m;
      }
    }
  }

  /**
   * The uniqueness hypothesis above is needed: the guard looks at the first
   * item with the id only, but the update decrements every item with it.
   */
  lemma DuplicateIdsCanGoNegative()
    ensures var inventory := [InventoryItem("1", "Bat", "Cricket", 1, 1, "Good", "d"),
                              InventoryItem("1", "Ball", "Cricket", 1, 0, "Good", "d")];
            var form := IssueForm("1", "A", "r1", "");
            DecideIssue(inventory, form).Accept? &&
            NoneNegative(inventory) &&
            AdjustAvailable(inventory, "1", -1)[1].available == -1
  {
    var inventory := [InventoryItem("1", "Bat", "Cricket", 1, 1, "Good", "d"),
                      InventoryItem("1", "Ball", "Cricket", 1, 0, "Good", "d")];
    assert FindItem(inventory, "1") == Some(inventory[0]);
  }

  /** An item the issue dialog offers passes the availability guard. */
  lemma OfferedItemIsAccepted(inventory: seq<InventoryItem>, form: IssueForm, item: InventoryItem)
    requires UniqueIds(inventory)
    requires item in IssuableItems(inventory)
    requires form.itemId == item.id && form.itemId != "" && form.studentName != "" && form.studentId != ""
    ensures DecideIssue(inventory, form) == Accept(item)
  {
    var offered := IssuableItems(inventory);
    var i :| 0 <= i < |offered| && offered[i] == item;
    var k :| 0 <= k < |inventory| && inventory[k] == item;
    assert inventory[k].id == item.id;
    var found := FindItem(inventory, item.id).value;
    var m :| 0 <= m < |inventory| && inventory[m] == found
             && forall j :: 0 <= j < m ==> inventory[j].id != item.id;
    assert !(k < m);
    assert !(m < k);
  }

  /** Decrementing then incrementing the same id restores the inventory exactly. */
  lemma AdjustAvailableUndo(inventory: seq<InventoryItem>, id: string)
    ensures AdjustAvailable(AdjustAvailable(inventory, id, -1), id, 1) == inventory
  {
    var r := AdjustAvailable(AdjustAvailable(inventory, id, -1), id, 1);
    forall k | 0 <= k < |inventory|
      ensures r[k] == inventory[k]
    {
      assert r[k].(available := inventory[k].available) == inventory[k];
    }
  }

  /**
   * Issuing an item and then returning that issue (its id fresh among the
   * records) finds the new record and restores the inventory exactly.
   */
  lemma IssueThenReturnRestores(inventory: seq<InventoryItem>, issues: seq<IssueRecord>,
                                form: IssueForm, freshId: string, today: string)
    requires DecideIssue(inventory, form).Accept?
    requires forall k :: 0 <= k < |issues| ==> issues[k].id != freshId
    ensures var record := NewIssueRecord(form, DecideIssue(inventory, form).item, freshId, today);
            FindIssue(issues + [record], freshId) == Some(record) &&
            AdjustAvailable(AdjustAvailable(inventory, form.itemId, -1), record.itemId, 1) == inventory
  {
    var record := NewIssueRecord(form, DecideIssue(inventory, form).item, freshId, today);
    var all := issues + [record];
    assert all[|issues|].id == freshId;
    var found := FindIssue(all, freshId).value;
    var m :| 0 <= m < |all| && all[m] == found && forall j :: 0 <= j < m ==> all[j].id != freshId;
    assert m == |issues|;
    AdjustAvailableUndo(inventory, form.itemId);
  }

  /**
   * Returning does not look at the record's status and does not cap at
   * `quantity`: returning an already-returned record raises `available`
   * above the item's quantity.
   */
  lemma ReturnIsUncapped()
    ensures var inventory := [InventoryItem("7", "Bat", "Cricket", 1, 1, "Good", "d")];
            var issues := [IssueRecord("9", "7", "Bat", "A", "r1", "d", Some("d"), Returned, "")];
            FindIssue(issues, "9").Some? &&
            var after := AdjustAvailable(inventory, FindIssue(issues, "9").value.itemId, 1);
            after[0].available == 2 > after[0].quantity
  {
    var issues := [IssueRecord("9", "7", "Bat", "A", "r1", "d", Some("d"), Returned, "")];
    assert FindIssue(issues, "9") == Some(issues[0]);
  }

  /** No two issue records share an id. */
  predicate UniqueIssueIds(issues: seq<IssueRecord>)
  {
    forall i, j :: 0 <= i < j < |issues| ==> issues[i].id != issues[j].id
  }

  /** With unique record ids, the found record is the only one the return can move out of "Currently Issued". */
  lemma {:induction false} IssuedWithIdUnique(issues: seq<IssueRecord>, id: string)
    requires UniqueIssueIds(issues)
    requires FindIssue(issues, id).Some?
    ensures IssuedWithId(issues, id) == if FindIssue(issues, id).value.status == Issued then 1 else 0
  {
    var q := (i: IssueRecord) => i.id == id && i.status == Issued;
    assert Filter(issues, q) == (if q(issues[0]) then [issues[0]] else []) + Filter(issues[1..], q);
    if issues[0].id == id {
      assert FindIssue(issues, id).value == issues[0];
      FilterKeepsNone(issues[1..], q);
    } else {
      assert FindIssue(issues[1..], id) == FindIssue(issues, id);
      IssuedWithIdUnique(issues[1..], id);
    }
  }

  /** With unique item ids, a successful issue lowers "Available Items" by one and raises "Currently Issued" by one. */
  lemma IssueStatistics(inventory: seq<InventoryItem>, issues: seq<IssueRecord>,
                        form: IssueForm, freshId: string, today: string)
    requires UniqueIds(inventory)
    requires DecideIssue(inventory, form).Accept?
    ensures AvailableItems(AdjustAvailable(inventory, form.itemId, -1)) == AvailableItems(inventory) - 1
    ensures var record := NewIssueRecord(form, DecideIssue(inventory, form).item, freshId, today);
            CurrentlyIssued(issues + [record]) == CurrentlyIssued(issues) + 1
  {
    ItemsWithIdUnique(inventory, form.itemId);
    AvailableItemsAdjust(inventory, form.itemId, -1);
    CurrentlyIssuedAppend(issues, NewIssueRecord(form, DecideIssue(inventory, form).item, freshId, today));
  }

  /**
   * With unique ids on both lists, returning a record that is still issued,
   * whose item is still in the inventory, raises "Available Items" by one and
   * lowers "Currently Issued" by one.
   */
  lemma ReturnStatistics(inventory: seq<InventoryItem>, issues: seq<IssueRecord>, issueId: string, today: string)
    requires UniqueIds(inventory) && UniqueIssueIds(issues)
    requires FindIssue(issues, issueId).Some? && FindIssue(issues, issueId).value.status == Issued
    requires FindItem(inventory, FindIssue(issues, issueId).value.itemId).Some?
    ensures AvailableItems(AdjustAvailable(inventory, FindIssue(issues, issueId).value.itemId, 1))
              == AvailableItems(inventory) + 1
    ensures CurrentlyIssued(MarkReturned(issues, issueId, today)) == CurrentlyIssued(issues) - 1
  {
    var itemId := FindIssue(issues, issueId).value.itemId;
    ItemsWithIdUnique(inventory, itemId);
    AvailableItemsAdjust(inventory, itemId, 1);
    IssuedWithIdUnique(issues, issueId);
    CurrentlyIssuedMarkReturned(issues, issueId, today);
  }

  /** Adding an item under an id no item carries keeps ids unique. */
  lemma AddKeepsUniqueIds(inventory: seq<InventoryItem>, f: NewItemForm, freshId: string, today: string)
    requires UniqueIds(inventory)
    requires forall k :: 0 <= k < |inventory| ==> inventory[k].id != freshId
    ensures UniqueIds(inventory + [NewInventoryItem(f, freshId, today)])
  {
  }

  /** An accepted new item is offered by the issue dialog straight away. */
  lemma AddedItemIsIssuable(inventory: seq<InventoryItem>, f: NewItemForm, freshId: string, today: string)
    requires NewItemAccepted(f)
    ensures NewInventoryItem(f, freshId, today) in IssuableItems(inventory + [NewInventoryItem(f, freshId, today)])
  {
    var all := inventory + [NewInventoryItem(f, freshId, today)];
    assert all[|inventory|] == NewInventoryItem(f, freshId, today);
  }

  /** An item whose id the rest does not carry can lead a list with unique ids. */
  lemma UniqueIdsCons(item: InventoryItem, rest: seq<InventoryItem>)
    requires UniqueIds(rest)
    requires forall k :: 0 <= k < |rest| ==> rest[k].id != item.id
    ensures UniqueIds([item] + rest)
  {
    var all := [item] + rest;
    forall i, j | 0 <= i < j < |all|
      ensures all[i].id != all[j].id
    {
      assert all[j] == rest[j - 1];
      if i > 0 {
        assert all[i] == rest[i - 1];
      }
    }
  }

  /** Deleting keeps ids unique. */
  lemma {:induction false} RemoveKeepsUniqueIds(inventory: seq<InventoryItem>, id: string)
    requires UniqueIds(inventory)
    ensures UniqueIds(RemoveItem(inventory, id))
  {
    if inventory != [] {
      var p := (i: InventoryItem) => i.id != id;
      var tail := inventory[1..];
      var t := RemoveItem(tail, id);
      RemoveKeepsUniqueIds(tail, id);
      assert Filter(inventory, p) == (if p(inventory[0]) then [inventory[0]] else []) + t;
      if p(inventory[0]) {
        forall k | 0 <= k < |t|
          ensures t[k].id != inventory[0].id
        {
          var j :| 0 <= j < |tail| && tail[j] == t[k];
          assert inventory[j + 1] == t[k];
        }
        UniqueIdsCons(inventory[0], t);
      } else {
        assert Filter(inventory, p) == t;
      }
    }
  }

  /** Marking issued records returned and moving `available` keep every id where it was. */
  lemma UpdatesKeepIds(inventory: seq<InventoryItem>, issues: seq<IssueRecord>, itemId: string,
                       delta: int, issueId: string, date: string)
    ensures UniqueIds(inventory) ==> UniqueIds(AdjustAvailable(inventory, itemId, delta))
    ensures UniqueIssueIds(issues) ==> UniqueIssueIds(MarkReturned(issues, issueId, date))
  {
    var r := AdjustAvailable(inventory, itemId, delta);
    assert forall k :: 0 <= k < |inventory| ==> r[k].id == r[k].(available := inventory[k].available).id;
    var m := MarkReturned(issues, issueId, date);
    assert forall k :: 0 <= k < |issues| ==>
             m[k].id == m[k].(status := issues[k].status, returnDate := issues[k].returnDate).id;
  }

  // ---------------------------------------------------------------------------
  // The dashboard's state

  class Dashboard {
    var inventory: seq<InventoryItem>
    var issues: seq<IssueRecord>
    var newItem: NewItemForm
    var issueForm: IssueForm

    constructor ()
      ensures inventory == [] && issues == []
      ensures newItem == BlankNewItem && issueForm == BlankIssueForm
    {
      inventory := [];
      issues := [];
      newItem := BlankNewItem;
      issueForm := BlankIssueForm;
    }

    /** The add-item form's input handlers. */
    method EditNewItem(f: NewItemForm)
      modifies this
      ensures newItem == f
      ensures inventory == old(inventory) && issues == old(issues) && issueForm == old(issueForm)
    {
      newItem := f;
    }

    /** The issue form's input handlers. */
    method EditIssueForm(f: IssueForm)
      modifies this
      ensures issueForm == f
      ensures inventory == old(inventory) && issues == old(issues) && newItem == old(newItem)
    {
      issueForm := f;
    }

    /**
     * `addInventoryItem`: on an accepted form, appends the new item at the
     * end and clears the form; otherwise changes nothing.
     */
    method AddInventoryItem(freshId: string, today: string) returns (added: bool)
      modifies this
      ensures added <==> NewItemAccepted(old(newItem))
      ensures added ==> inventory == old(inventory) + [NewInventoryItem(old(newItem), freshId, today)]
      ensures added ==> newItem == BlankNewItem
      ensures !added ==> inventory == old(inventory) && newItem == old(newItem)
      ensures issues == old(issues) && issueForm == old(issueForm)
    {
      if !NewItemAccepted(newItem) {
        return false;
      }
      var item := NewInventoryItem(newItem, freshId, today);
      inventory := inventory + [item];
      newItem := BlankNewItem;
      added := true;
    }

    /** `deleteInventoryItem`: drops every item with the id; issue records are untouched. */
    method DeleteInventoryItem(id: string)
      modifies this
      ensures inventory == RemoveItem(old(inventory), id)
      ensures issues == old(issues) && newItem == old(newItem) && issueForm == old(issueForm)
    {
      inventory := RemoveItem(inventory, id);
    }

    /**
     * `issueItem`: on acceptance, decrements the `available` of the item(s)
     * with the form's id by one, appends one `issued` record and clears the
     * form; on either rejection changes nothing.
     */
    method IssueItem(freshId: string, today: string) returns (decision: IssueDecision)
      modifies this
      ensures decision == DecideIssue(old(inventory), old(issueForm))
      ensures decision.Accept? ==> inventory == AdjustAvailable(old(inventory), old(issueForm).itemId, -1)
      ensures decision.Accept? ==>
                issues == old(issues) + [NewIssueRecord(old(issueForm), decision.item, freshId, today)]
      ensures decision.Accept? ==> issueForm == BlankIssueForm
      ensures !decision.Accept? ==>
                inventory == old(inventory) && issues == old(issues) && issueForm == old(issueForm)
      ensures newItem == old(newItem)
    {
      decision := DecideIssue(inventory, issueForm);
      if decision.Accept? {
        var record := NewIssueRecord(issueForm, decision.item, freshId, today);
        inventory := AdjustAvailable(inventory, issueForm.itemId, -1);
        issues := issues + [record];
        issueForm := BlankIssueForm;
      }
    }

    /**
     * `returnItem`: with an unknown id, a no-op; otherwise every record with
     * the id is marked returned on `today` and every item with the found
     * record's item id gains one `available`.
     */
    method ReturnItem(issueId: string, today: string) returns (found: bool)
      modifies this
      ensures found <==> FindIssue(old(issues), issueId).Some?
      ensures found ==> issues == MarkReturned(old(issues), issueId, today)
      ensures found ==> inventory == AdjustAvailable(old(inventory), FindIssue(old(issues), issueId).value.itemId, 1)
      ensures !found ==> issues == old(issues) && inventory == old(inventory)
      ensures newItem == old(newItem) && issueForm == old(issueForm)
    {
      var issue := FindIssue(issues, issueId);
      if issue.None? {
        return false;
      }
      issues := MarkReturned(issues, issueId, today);
      inventory := AdjustAvailable(inventory, issue.value.itemId, 1);
      found := true;
    }
  }
}
