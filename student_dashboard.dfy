/** The student's view of their entries: one entry ready for pickup and a history list,
    derived by one pass over the fetched entries. */
module StudentDashboard {
  import opened Common
  import opened LaundryData

  /** The position of the first entry with the given status. */
  function FirstIndexWithStatus(entries: seq<Entry>, status: string): (r: Option<nat>)
    ensures r.Some? ==> r.value < |entries| && entries[r.value].status == status
                        && forall j :: 0 <= j < r.value ==> entries[j].status != status
    ensures r.None? ==> forall j :: 0 <= j < |entries| ==> entries[j].status != status
    decreases |entries|
  {
    if entries == [] then None
    else
      var n := |entries|;
      var front := entries[..n - 1];
      assert forall j :: 0 <= j < n - 1 ==> front[j] == entries[j];
      match FirstIndexWithStatus(front, status)
      case Some(i) => Some(i)
      case None => if entries[n - 1].status == status then Some(n - 1) else None
  }

  /** The entry shown as ready for pickup: the first completed one. */
  function ActiveEntry(entries: seq<Entry>): Option<Entry>
  {
    match FirstIndexWithStatus(entries, COMPLETED)
    case Some(i) => Some(entries[i])
    case None => None
  }

  /** The entries listed under history: every one that is not completed. */
  function HistoryEntries(entries: seq<Entry>): seq<Entry>
  {
    WithoutStatus(entries, COMPLETED)
  }

  /** The render-time loop that splits the fetched entries. */
  method SplitEntries(entries: seq<Entry>) returns (active: Option<Entry>, history: seq<Entry>)
    ensures active == ActiveEntry(entries)
    ensures history == HistoryEntries(entries)
    ensures active.Some? ==> active.value.status == COMPLETED
    ensures forall e :: e in history ==> e.status != COMPLETED
    ensures entries == [] ==> active.None? && history == []
  {
    active := None;
    history := [];
    for i := 0 to |entries|
      invariant active == ActiveEntry(entries[..i])
      invariant history == HistoryEntries(entries[..i])
    {
      assert entries[..i + 1][..i] == entries[..i];
      if entries[i].status == COMPLETED && active.None? {
        active := Some(entries[i]);
      } else if entries[i].status != COMPLETED {
        history := history + [entries[i]];
      }
    }
    assert entries[..|entries|] == entries;
  }

  /** The active entry exists exactly when some entry is completed; it is completed, and it
      is the first completed entry of the list. */
  lemma ActiveEntryIsFirstCompleted(entries: seq<Entry>)
    ensures ActiveEntry(entries).Some? <==> exists i :: 0 <= i < |entries| && entries[i].status == COMPLETED
    ensures ActiveEntry(entries).Some? ==>
              exists i :: 0 <= i < |entries| && entries[i] == ActiveEntry(entries).value
                          && entries[i].status == COMPLETED
                          && forall j :: 0 <= j < i ==> entries[j].status != COMPLETED
  {
    match FirstIndexWithStatus(entries, COMPLETED)
    case Some(i) =>
      assert entries[i].status == COMPLETED;
    case None =>
  }

  /** The history holds exactly the entries that are not completed, in their original
      order: it lists the entries at an increasing run of positions, which are precisely the
      positions of non-completed entries. */
  lemma HistoryIsNotCompleted(entries: seq<Entry>)
    ensures forall e :: e in HistoryEntries(entries) <==> e in entries && e.status != COMPLETED
    ensures exists idx :: SelectsPositions(entries, COMPLETED, false, HistoryEntries(entries), idx)
  {
    forall e | e in entries && e.status != COMPLETED ensures e in HistoryEntries(entries) {
      MatchingComplete(entries, COMPLETED, false, e);
    }
    var idx := MatchingIsSubsequence(entries, COMPLETED, false);
    assert SelectsPositions(entries, COMPLETED, false, HistoryEntries(entries), idx);
  }

  /** What the split drops: every completed entry after the first. The history and the
      active entry together account for all entries but those. */
  lemma SplitAccountsForEntries(entries: seq<Entry>)
    ensures var completed := |WithStatus(entries, COMPLETED)|;
            var activeCount := if ActiveEntry(entries).Some? then 1 else 0;
            && activeCount == (if completed > 0 then 1 else 0)
            && |HistoryEntries(entries)| + activeCount + (completed - activeCount) == |entries|
            && |HistoryEntries(entries)| + activeCount <= |entries|
  {
    MatchingPartition(entries, COMPLETED);
    var completed := WithStatus(entries, COMPLETED);
    ActiveEntryIsFirstCompleted(entries);
    if |completed| > 0 {
      assert completed[0] in completed;
      var i :| 0 <= i < |entries| && entries[i] == completed[0];
    } else {
      forall i | 0 <= i < |entries| ensures entries[i].status != COMPLETED {
        if entries[i].status == COMPLETED {
          MatchingComplete(entries, COMPLETED, true, entries[i]);
        }
      }
    }
  }

  /** The pickup button: present only with an active entry, and aimed at its id. */
  function PickupTarget(active: Option<Entry>): Option<string>
  {
    match active
    case Some(e) => Some(e.entryId)
    case None => None
  }

  /** The pickup button appears exactly when some entry is completed, and the id it sends
      is that of the first completed entry. */
  lemma PickupTargetsFirstCompleted(entries: seq<Entry>)
    ensures PickupTarget(ActiveEntry(entries)).Some? <==>
              exists i :: 0 <= i < |entries| && entries[i].status == COMPLETED
    ensures PickupTarget(ActiveEntry(entries)).Some? ==>
              exists i :: 0 <= i < |entries| && entries[i].status == COMPLETED
                          && entries[i].entryId == PickupTarget(ActiveEntry(entries)).value
                          && forall j :: 0 <= j < i ==> entries[j].status != COMPLETED
  {
    ActiveEntryIsFirstCompleted(entries);
  }

  /** The badge on a history card. */
  function HistoryBadge(e: Entry): string
  {
    if e.status == RECEIVED then "In Progress" else "Picked Up"
  }

  /** On the history list a card reads "In Progress" exactly for a received entry; when the
      statuses are the server's three, "Picked Up" is shown exactly for picked-up entries. */
  lemma HistoryBadgesMatchStatus(entries: seq<Entry>)
    ensures forall e :: e in HistoryEntries(entries) ==> (HistoryBadge(e) == "In Progress" <==> e.status == RECEIVED)
    ensures (forall e :: e in entries ==> KnownStatus(e.status)) ==>
              forall e :: e in HistoryEntries(entries) ==> (HistoryBadge(e) == "Picked Up" <==> e.status == PICKED_UP)
  {
    assert "In Progress" != "Picked Up" by {
      assert "In Progress"[0] != "Picked Up"[0];
    }
    StatusesDistinct();
    forall e | e in HistoryEntries(entries) ensures e in entries && e.status != COMPLETED {
    }
  }

  /** A completed entry followed by a received one. */
  lemma SplitExample(a: Entry, b: Entry)
    requires a.status == COMPLETED && b.status == RECEIVED
    ensures ActiveEntry([a, b]) == Some(a) && HistoryEntries([a, b]) == [b]
  {
    StatusesDistinct();
    assert [a, b][..1] == [a];
    assert [a][..0] == [];
    assert FirstIndexWithStatus([a], COMPLETED) == Some(0);
    assert FirstIndexWithStatus([a, b], COMPLETED) == Some(0);
    assert Matching([a], COMPLETED, false) == [];
  }
}
