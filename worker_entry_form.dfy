/** The stand-alone entry form: the same three item-list handlers as the dashboard, written
    with an explicit copy and loop, each proved equal to the dashboard's definition; and the
    remove-button rule, which keeps the item list from ever becoming empty. */
module WorkerEntryForm {
  import opened LaundryData
  import opened WorkerDashboard

  /** `handleAddItem`: copy the items and push a default item. */
  method HandleAddItem(form: FormData) returns (next: FormData)
    ensures next.studentId == form.studentId && next.studentName == form.studentName
    ensures |next.items| == |form.items| + 1
    ensures next.items[..|form.items|] == form.items && next.items[|form.items|] == DEFAULT_ITEM
    ensures next.items == AddItem(form.items)
  {
    var newItems := form.items;
    newItems := newItems + [DEFAULT_ITEM];
    next := form.(items := newItems);
  }

  /** `handleRemoveItem`: copy every item whose position is not `index`. */
  method HandleRemoveItem(form: FormData, index: int) returns (next: FormData)
    ensures next.studentId == form.studentId && next.studentName == form.studentName
    ensures 0 <= index < |form.items| ==> next.items == form.items[..index] + form.items[index + 1..]
    ensures !(0 <= index < |form.items|) ==> next.items == form.items
    ensures next.items == RemoveItem(form.items, index)
  {
    var items := form.items;
    var newItems: seq<Item> := [];
    for i := 0 to |items|
      invariant newItems == if 0 <= index < i then items[..index] + items[index + 1..i] else items[..i]
    {
      if i != index {
        if 0 <= index < i {
          assert items[index + 1..i + 1] == items[index + 1..i] + [items[i]];
        } else {
          assert items[..i + 1] == items[..i] + [items[i]];
        }
        newItems := newItems + [items[i]];
      } else {
        assert items[index + 1..i + 1] == [];
      }
    }
    assert items[..|items|] == items;
    assert 0 <= index < |items| ==> items[index + 1..|items|] == items[index + 1..];
    RemoveItemDeletesPosition(items, index);
    next := form.(items := newItems);
  }

  /** `handleItemChange` on a rendered line: copy the items into a fresh array and write the
      named field of the one at `index`. */
  method HandleItemChange(form: FormData, index: nat, edit: ItemEdit) returns (next: FormData)
    requires index < |form.items|
    ensures next.studentId == form.studentId && next.studentName == form.studentName
    ensures |next.items| == |form.items|
    ensures forall j :: 0 <= j < |form.items| && j != index ==> next.items[j] == form.items[j]
    ensures edit.SetItemType? ==>
              next.items[index].itemType == edit.itemType && next.items[index].quantity == form.items[index].quantity
    ensures edit.SetQuantity? ==>
              next.items[index].quantity == edit.quantity && next.items[index].itemType == form.items[index].itemType
    ensures next.items == ChangeItem(form.items, index, edit)
  {
    var n := |form.items|;
    var newItems := new Item[n](i requires 0 <= i < n => form.items[i]);
    newItems[index] := ApplyEdit(newItems[index], edit);
    next := form.(items := newItems[..]);
  }

  /** What the worker can do to the item list through the form. */
  datatype FormAction = AddLine | RemoveLine(index: int) | ChangeLine(index: int, edit: ItemEdit)

  /** Whether the form renders the control the action uses: the add button always; a
      line's remove button only while there is more than one line; a line's inputs for each
      rendered line. */
  predicate Offered(items: seq<Item>, a: FormAction)
  {
    match a
    case AddLine => true
    case RemoveLine(i) => ShowRemoveButton(items) && 0 <= i < |items|
    case ChangeLine(i, _) => 0 <= i < |items|
  }

  /** The item list after the worker's actions; a control the form does not render cannot
      be used, so such an action leaves the list as it is. */
  function Run(items: seq<Item>, actions: seq<FormAction>): seq<Item>
    decreases |actions|
  {
    if actions == [] then items
    else
      var a := actions[0];
      var next :=
        if !Offered(items, a) then items
        else match a
          case AddLine => AddItem(items)
          case RemoveLine(i) => RemoveItem(items, i)
          case ChangeLine(i, e) => ChangeItem(items, i, e);
      Run(next, actions[1..])
  }

  /** One offered action never empties a non-empty list. */
  lemma StepKeepsALine(items: seq<Item>, a: FormAction)
    requires |items| >= 1 && Offered(items, a)
    ensures a.AddLine? ==> |AddItem(items)| >= 1
    ensures a.RemoveLine? ==> |RemoveItem(items, a.index)| == |items| - 1 >= 1
    ensures a.ChangeLine? ==> |ChangeItem(items, a.index, a.edit)| == |items|
  {
    if a.RemoveLine? {
      RemoveItemDeletesPosition(items, a.index);
    }
  }

  /** However the worker uses the form, a list with at least one line keeps at least one:
      the form as first shown, and as reset, submits a non-empty item list. */
  lemma {:induction false} RunKeepsALine(items: seq<Item>, actions: seq<FormAction>)
    requires |items| >= 1
    ensures |Run(items, actions)| >= 1
    decreases |actions|
  {
    if actions != [] {
      var a := actions[0];
      if Offered(items, a) {
        StepKeepsALine(items, a);
        match a
        case AddLine => RunKeepsALine(AddItem(items), actions[1..]);
        case RemoveLine(i) => RunKeepsALine(RemoveItem(items, i), actions[1..]);
        case ChangeLine(i, e) => RunKeepsALine(ChangeItem(items, i, e), actions[1..]);
      } else {
        RunKeepsALine(items, actions[1..]);
      }
    }
  }

  /** Starting from the empty form, the items are never an empty list. */
  lemma FreshFormNeverEmpty(actions: seq<FormAction>)
    ensures Run(EMPTY_FORM.items, actions) != []
  {
    RunKeepsALine(EMPTY_FORM.items, actions);
  }
}
