/** The worker's dashboard: the status filter and the per-status counts over all entries,
    the entry form's item list and its edits, and the component state the handlers update. */
module WorkerDashboard {
  import opened Common
  import opened LaundryData

  /** The filter value that shows every entry (the default). */
  const ALL: string := "all"

  /** `filteredEntries`. */
  function FilterEntries(entries: seq<Entry>, filter: string): seq<Entry>
  {
    if filter == ALL then entries else WithStatus(entries, filter)
  }

  /** With `all` the table lists every entry; with any other filter it lists exactly the
      entries of that status, as an order-preserving subsequence of the input. */
  lemma FilterSelectsStatus(entries: seq<Entry>, filter: string)
    ensures filter == ALL ==> FilterEntries(entries, filter) == entries
    ensures filter != ALL ==>
              && (forall e :: e in FilterEntries(entries, filter) <==> e in entries && e.status == filter)
              && exists idx :: SelectsPositions(entries, filter, true, FilterEntries(entries, filter), idx)
  {
    if filter != ALL {
      forall e | e in entries && e.status == filter ensures e in FilterEntries(entries, filter) {
        MatchingComplete(entries, filter, true, e);
      }
      var idx := MatchingIsSubsequence(entries, filter, true);
      assert SelectsPositions(entries, filter, true, FilterEntries(entries, filter), idx);
    }
  }

  datatype Stats = Stats(total: nat, received: nat, completed: nat, pickedUp: nat)

  /** The statuses of the entries, position by position. */
  function StatusList(entries: seq<Entry>): (r: seq<string>)
    ensures |r| == |entries| && forall i :: 0 <= i < |entries| ==> r[i] == entries[i].status
  {
    seq(|entries|, i requires 0 <= i < |entries| => entries[i].status)
  }

  /** A status filter keeps as many entries as the status occurs in the list. */
  lemma {:induction false} WithStatusCountsOccurrences(entries: seq<Entry>, status: string)
    ensures |WithStatus(entries, status)| == multiset(StatusList(entries))[status]
    decreases |entries|
  {
    if entries != [] {
      var n := |entries|;
      var front := entries[..n - 1];
      WithStatusCountsOccurrences(front, status);
      assert StatusList(entries) == StatusList(front) + [entries[n - 1].status];
    }
  }

  /** `stats`: the entry count and the number of entries of each status. */
  function ComputeStats(entries: seq<Entry>): (st: Stats)
    ensures st.total == |entries|
    ensures st.received == multiset(StatusList(entries))[RECEIVED]
    ensures st.completed == multiset(StatusList(entries))[COMPLETED]
    ensures st.pickedUp == multiset(StatusList(entries))[PICKED_UP]
  {
    WithStatusCountsOccurrences(entries, RECEIVED);
    WithStatusCountsOccurrences(entries, COMPLETED);
    WithStatusCountsOccurrences(entries, PICKED_UP);
    Stats(|entries|, |WithStatus(entries, RECEIVED)|, |WithStatus(entries, COMPLETED)|, |WithStatus(entries, PICKED_UP)|)
  }

  /** The three counts never exceed the total, and they add up to it exactly when every
      status is one of the three. */
  lemma StatsPartitionTotal(entries: seq<Entry>)
    ensures var st := ComputeStats(entries);
            && st.received + st.completed + st.pickedUp <= st.total
            && (st.received + st.completed + st.pickedUp == st.total <==>
                  forall e :: e in entries ==> KnownStatus(e.status))
  {
    StatusPartition(entries);
    UnknownCountZero(entries);
  }

  /** The empty list: no rows and every count zero. */
  lemma EmptyDashboard()
    ensures ComputeStats([]) == Stats(0, 0, 0, 0)
    ensures forall filter :: FilterEntries([], filter) == []
  {
  }

  /** The Complete button of a table row. */
  predicate ShowCompleteButton(e: Entry)
  {
    e.status == RECEIVED
  }

  /** Complete is offered only on received rows; under `all` or `received` there is one
      such button per received entry (the "Received" count), under any other status filter
      none. */
  lemma CompleteButtonsMatchReceived(entries: seq<Entry>, filter: string)
    ensures forall e :: e in FilterEntries(entries, filter) && ShowCompleteButton(e) ==> e in entries && e.status == RECEIVED
    ensures filter == ALL || filter == RECEIVED ==>
              |WithStatus(FilterEntries(entries, filter), RECEIVED)| == ComputeStats(entries).received
    ensures filter != ALL && filter != RECEIVED ==> WithStatus(FilterEntries(entries, filter), RECEIVED) == []
  {
    if filter != ALL {
      WithStatusTwice(entries, filter, RECEIVED);
    }
  }

  // ----- the entry form's item list -----

  /** The item every new line starts as: no type, quantity one. */
  const DEFAULT_ITEM: Item := Item("", 1)

  /** A change to one field of an item; a quantity arrives already parsed. */
  datatype ItemEdit = SetItemType(itemType: string) | SetQuantity(quantity: int)

  datatype FormData = FormData(studentId: string, studentName: string, items: seq<Item>)

  /** The form as first shown and as reset after a successful submit. */
  const EMPTY_FORM: FormData := FormData("", "", [DEFAULT_ITEM])

  /** `handleAddItem`: `[...items, {item_type: '', quantity: 1}]`. */
  function AddItem(items: seq<Item>): seq<Item>
  {
    items + [DEFAULT_ITEM]
  }

  /** Adding keeps every earlier item in place and puts one default item last. */
  lemma AddItemAppendsDefault(items: seq<Item>)
    ensures |AddItem(items)| == |items| + 1
    ensures AddItem(items)[..|items|] == items && AddItem(items)[|items|] == DEFAULT_ITEM
    ensures SumQuantities(AddItem(items)) == SumQuantities(items) + 1
  {
    SumQuantitiesAppend(items, [DEFAULT_ITEM]);
  }

  /** `handleRemoveItem`: `items.filter((_, i) => i !== index)`. */
  function RemoveItem(items: seq<Item>, index: int): seq<Item>
  {
    if items == [] then []
    else RemoveItem(items[..|items| - 1], index) + (if |items| - 1 != index then [items[|items| - 1]] else [])
  }

  /** Removing deletes exactly the item at a valid position and keeps the others in order;
      a position outside the list changes nothing. */
  lemma {:induction false} RemoveItemDeletesPosition(items: seq<Item>, index: int)
    ensures 0 <= index < |items| ==> RemoveItem(items, index) == items[..index] + items[index + 1..]
    ensures !(0 <= index < |items|) ==> RemoveItem(items, index) == items
    decreases |items|
  {
    if items != [] {
      var n := |items|;
      var front := items[..n - 1];
      RemoveItemDeletesPosition(front, index);
      if 0 <= index < n - 1 {
        assert front[..index] == items[..index];
        assert front[index + 1..] + [items[n - 1]] == items[index + 1..];
      } else if index == n - 1 {
        assert items[index + 1..] == [];
        assert RemoveItem(items, index) == front + [];
      } else {
        assert front + [items[n - 1]] == items;
      }
    }
  }

  /** The field write of `handleItemChange`. */
  function ApplyEdit(item: Item, edit: ItemEdit): Item
  {
    match edit
    case SetItemType(t) => item.(itemType := t)
    case SetQuantity(q) => item.(quantity := q)
  }

  /** `handleItemChange` on a position the form renders. */
  function ChangeItem(items: seq<Item>, index: nat, edit: ItemEdit): seq<Item>
    requires index < |items|
  {
    items[index := ApplyEdit(items[index], edit)]
  }

  /** A change writes only the named field of the item at the position: the other field and
      every other item keep their values. */
  lemma ChangeItemTouchesOneField(items: seq<Item>, index: nat, edit: ItemEdit)
    requires index < |items|
    ensures var r := ChangeItem(items, index, edit);
            && |r| == |items|
            && (forall j :: 0 <= j < |items| && j != index ==> r[j] == items[j])
            && (edit.SetItemType? ==> r[index].itemType == edit.itemType && r[index].quantity == items[index].quantity)
            && (edit.SetQuantity? ==> r[index].quantity == edit.quantity && r[index].itemType == items[index].itemType)
  {
  }

  /** The remove button on every item line: shown only while there is more than one line. */
  predicate ShowRemoveButton(items: seq<Item>)
  {
    |items| > 1
  }

  /** The dashboard component's state, updated by its handlers. */
  class Dashboard {
    var entries: seq<Entry>
    var filter: string
    var form: FormData
    var showAddForm: bool

    constructor ()
      ensures entries == [] && filter == ALL && form == EMPTY_FORM && !showAddForm
    {
      entries := [];
      filter := ALL;
      form := EMPTY_FORM;
      showAddForm := false;
    }

    /** A successful fetch replaces the entries. */
    method EntriesFetched(fetched: seq<Entry>)
      modifies this
      ensures entries == fetched
      ensures filter == old(filter) && form == old(form) && showAddForm == old(showAddForm)
    {
      entries := fetched;
    }

    method SelectFilter(f: string)
      modifies this
      ensures filter == f
      ensures entries == old(entries) && form == old(form) && showAddForm == old(showAddForm)
    {
      filter := f;
    }

    method ToggleAddForm()
      modifies this
      ensures showAddForm == !old(showAddForm)
      ensures entries == old(entries) && filter == old(filter) && form == old(form)
    {
      showAddForm := !showAddForm;
    }

    method HandleAddItem()
      modifies this
      ensures form == old(form).(items := AddItem(old(form).items))
      ensures entries == old(entries) && filter == old(filter) && showAddForm == old(showAddForm)
    {
      form := form.(items := AddItem(form.items));
    }

    method HandleRemoveItem(index: int)
      modifies this
      ensures form == old(form).(items := RemoveItem(old(form).items, index))
      ensures entries == old(entries) && filter == old(filter) && showAddForm == old(showAddForm)
    {
      form := form.(items := RemoveItem(form.items, index));
    }

    method HandleItemChange(index: nat, edit: ItemEdit)
      requires index < |form.items|
      modifies this
      ensures form == old(form).(items := ChangeItem(old(form).items, index, edit))
      ensures entries == old(entries) && filter == old(filter) && showAddForm == old(showAddForm)
    {
      form := form.(items := ChangeItem(form.items, index, edit));
    }

    /** After the create request succeeds: the form closes and is reset; a new fetch follows. */
    method SubmitSucceeded()
      modifies this
      ensures !showAddForm && form == EMPTY_FORM
      ensures entries == old(entries) && filter == old(filter)
    {
      showAddForm := false;
      form := EMPTY_FORM;
    }
  }
}
