/** The laundry entry as the server stores it and both dashboards receive it,
    and the status-based selections that the dashboards derive from a list of entries. */
module LaundryData {
  import opened Common

  /** Timestamps are ordered opaque values (the server writes ISO-8601 text). */
  type Timestamp = int

  const RECEIVED: string := "received"
  const COMPLETED: string := "completed"
  const PICKED_UP: string := "picked_up"

  /** The three statuses the server ever writes. */
  predicate KnownStatus(status: string)
  {
    status == RECEIVED || status == COMPLETED || status == PICKED_UP
  }

  lemma StatusesDistinct()
    ensures RECEIVED != COMPLETED && RECEIVED != PICKED_UP && COMPLETED != PICKED_UP
  {
    assert RECEIVED[0] != COMPLETED[0] && RECEIVED[0] != PICKED_UP[0] && COMPLETED[0] != PICKED_UP[0];
  }

  /** One line of an entry: a kind of garment and how many of it. */
  datatype Item = Item(itemType: string, quantity: int)

  datatype Entry = Entry(
    entryId: string,
    studentId: string,
    studentName: string,
    items: seq<Item>,
    totalItems: int,
    submissionDate: Timestamp,
    completionDate: Option<Timestamp>,
    status: string,
    workerId: string)

  /** The sum of the quantities of the items, front to back. */
  function SumQuantities(items: seq<Item>): int
  {
    if items == [] then 0 else items[0].quantity + SumQuantities(items[1..])
  }

  lemma {:induction false} SumQuantitiesAppend(a: seq<Item>, b: seq<Item>)
    ensures SumQuantities(a + b) == SumQuantities(a) + SumQuantities(b)
    decreases |a|
  {
    if a == [] {
      assert a + b == b;
    } else {
      assert (a + b)[1..] == a[1..] + b;
      SumQuantitiesAppend(a[1..], b);
    }
  }

  /** With every quantity at least one (what the entry form asks for), the total is at
      least the number of item lines. */
  lemma {:induction false} SumQuantitiesAtLeastLines(items: seq<Item>)
    requires forall i :: 0 <= i < |items| ==> items[i].quantity >= 1
    ensures SumQuantities(items) >= |items|
    decreases |items|
  {
    if items != [] {
      SumQuantitiesAtLeastLines(items[1..]);
    }
  }

  /** The entries, in order, whose status is (wanted == true) or is not (wanted == false)
      the given one: JavaScript's `entries.filter(e => e.status === status)` and its negation. */
  function Matching(entries: seq<Entry>, status: string, wanted: bool): (r: seq<Entry>)
    ensures |r| <= |entries|
    ensures forall e :: e in r ==> e in entries && (e.status == status) == wanted
    decreases |entries|
  {
    if entries == [] then []
    else
      var last := entries[|entries| - 1];
      Matching(entries[..|entries| - 1], status, wanted) + (if (last.status == status) == wanted then [last] else [])
  }

  function WithStatus(entries: seq<Entry>, status: string): seq<Entry>
  {
    Matching(entries, status, true)
  }

  function WithoutStatus(entries: seq<Entry>, status: string): seq<Entry>
  {
    Matching(entries, status, false)
  }

  /** Every entry of the input that has the selection's status property is in the selection. */
  lemma {:induction false} MatchingComplete(entries: seq<Entry>, status: string, wanted: bool, e: Entry)
    requires e in entries && (e.status == status) == wanted
    ensures e in Matching(entries, status, wanted)
    decreases |entries|
  {
    var n := |entries|;
    if entries[n - 1] != e {
      assert e in entries[..n - 1] by {
        var k :| 0 <= k < n && entries[k] == e;
        assert k < n - 1;
        assert entries[..n - 1][k] == e;
      }
      MatchingComplete(entries[..n - 1], status, wanted, e);
    }
  }

  /** Selecting from two lists one after the other is selecting from their concatenation:
      the selection keeps the input's relative order. */
  lemma {:induction false} MatchingAppend(a: seq<Entry>, b: seq<Entry>, status: string, wanted: bool)
    ensures Matching(a + b, status, wanted) == Matching(a, status, wanted) + Matching(b, status, wanted)
    decreases |b|
  {
    if b == [] {
      assert a + b == a;
    } else {
      var n := |b|;
      assert (a + b)[..|a + b| - 1] == a + b[..n - 1];
      MatchingAppend(a, b[..n - 1], status, wanted);
    }
  }

  /** `idx` lists, in increasing order, exactly the positions of `entries` whose status has
      the wanted property, and `sel` lists the entries at those positions. */
  ghost predicate SelectsPositions(entries: seq<Entry>, status: string, wanted: bool, sel: seq<Entry>, idx: seq<nat>)
  {
    && |idx| == |sel|
    && (forall k :: 0 <= k < |idx| ==> idx[k] < |entries| && sel[k] == entries[idx[k]])
    && (forall k, l :: 0 <= k < l < |idx| ==> idx[k] < idx[l])
    && (forall i :: 0 <= i < |entries| ==> (i in idx <==> (entries[i].status == status) == wanted))
  }

  /** One more entry at the end: its position is added exactly when it matches. */
  lemma SelectsPositionsSnoc(front: seq<Entry>, last: Entry, status: string, wanted: bool, sel: seq<Entry>, idx: seq<nat>)
    requires SelectsPositions(front, status, wanted, sel, idx)
    ensures (last.status == status) == wanted ==>
              SelectsPositions(front + [last], status, wanted, sel + [last], idx + [|front|])
    ensures (last.status == status) != wanted ==>
              SelectsPositions(front + [last], status, wanted, sel, idx)
  {
    var entries := front + [last];
    assert forall i :: 0 <= i < |front| ==> entries[i] == front[i];
    if (last.status == status) == wanted {
      var idx' := idx + [|front|];
      forall i | 0 <= i < |entries|
        ensures i in idx' <==> (entries[i].status == status) == wanted
      {
        if i < |front| {
          assert i in idx' <==> i in idx;
        }
      }
    } else {
      assert |front| !in idx;
    }
  }

  /** The selection is the order-preserving subsequence of the matching entries: there is a
      strictly increasing list of input positions, exactly those whose status has the wanted
      property, and the selection lists the entries at those positions. */
  lemma {:induction false} MatchingIsSubsequence(entries: seq<Entry>, status: string, wanted: bool)
    returns (idx: seq<nat>)
    ensures SelectsPositions(entries, status, wanted, Matching(entries, status, wanted), idx)
    decreases |entries|
  {
    if entries == [] {
      idx := [];
      return;
    }
    var n := |entries|;
    var front := entries[..n - 1];
    var last := entries[n - 1];
    var before := MatchingIsSubsequence(front, status, wanted);
    assert entries == front + [last];
    SelectsPositionsSnoc(front, last, status, wanted, Matching(front, status, wanted), before);
    if (last.status == status) == wanted {
      idx := before + [n - 1];
    } else {
      idx := before;
      assert Matching(entries, status, wanted) == Matching(front, status, wanted) + [];
    }
  }

  /** Selecting by one status and then by another keeps everything when they agree and
      nothing when they differ. */
  lemma {:induction false} WithStatusTwice(entries: seq<Entry>, first: string, second: string)
    ensures WithStatus(WithStatus(entries, first), second) == if first == second then WithStatus(entries, first) else []
    decreases |entries|
  {
    if entries != [] {
      var n := |entries|;
      var front := entries[..n - 1];
      WithStatusTwice(front, first, second);
      var last := [entries[n - 1]];
      if entries[n - 1].status == first {
        MatchingAppend(WithStatus(front, first), last, second, true);
      } else {
        assert WithStatus(entries, first) == WithStatus(front, first) + [];
        assert WithStatus(entries, first) == WithStatus(front, first);
      }
    }
  }

  /** Every entry is either selected or rejected by a status test. */
  lemma {:induction false} MatchingPartition(entries: seq<Entry>, status: string)
    ensures |WithStatus(entries, status)| + |WithoutStatus(entries, status)| == |entries|
    decreases |entries|
  {
    if entries != [] {
      MatchingPartition(entries[..|entries| - 1], status);
    }
  }

  /** The number of entries whose status is none of the three known ones. */
  function UnknownCount(entries: seq<Entry>): nat
  {
    if entries == [] then 0
    else UnknownCount(entries[..|entries| - 1]) + (if KnownStatus(entries[|entries| - 1].status) then 0 else 1)
  }

  lemma {:induction false} UnknownCountZero(entries: seq<Entry>)
    ensures UnknownCount(entries) == 0 <==> forall e :: e in entries ==> KnownStatus(e.status)
    decreases |entries|
  {
    if entries != [] {
      var n := |entries|;
      var front := entries[..n - 1];
      UnknownCountZero(front);
      assert entries == front + [entries[n - 1]];
    }
  }

  /** The three known statuses and the unknown ones partition the list. */
  lemma {:induction false} StatusPartition(entries: seq<Entry>)
    ensures |WithStatus(entries, RECEIVED)| + |WithStatus(entries, COMPLETED)| + |WithStatus(entries, PICKED_UP)|
            + UnknownCount(entries) == |entries|
    decreases |entries|
  {
    if entries != [] {
      StatusPartition(entries[..|entries| - 1]);
    }
  }
}
