/**
 The intrusive circular doubly linked list of alt_llist.h. The nodes here are the alarms, which carry their
 links inside; the head of a list is one more node.
 */
module LinkedList {
  import opened Hal
  import opened AlarmTimer

  class Alarm {
    var next: Alarm?
    var previous: Alarm?
    var time: U32
    var rollover: bool

    /** ALT_LLIST_ENTRY */
    constructor ()
      ensures Idle() && next == null
    {
      next, previous, time, rollover := null, null, 0, false;
    }

    /** ALT_LLIST_HEAD: an empty list. */
    constructor Head()
      ensures next == this && previous == this
    {
      next, previous, time, rollover := this, this, 0, false;
    }

    function AsTimer(): Timer
      reads this`time, this`rollover
    {
      Timer(time, rollover)
    }

    /** Never linked, or linked to itself by Remove. */
    ghost predicate Idle()
      reads this`next, this`previous
    {
      next == previous && (next == null || next == this)
    }
  }

  /** Once round the list: from the head through the entries and back to the head. */
  ghost predicate Ring(r: seq<Alarm>)
    reads r`next, r`previous
  {
    && |r| >= 2 && r[0] == r[|r| - 1]
    && (forall i, j :: 0 <= i < j < |r| - 1 ==> r[i] != r[j])
    && (forall i {:trigger r[i].next} :: 0 <= i < |r| - 1 ==> r[i].next == r[i + 1])
    && (forall i {:trigger r[i].previous} :: 0 < i < |r| ==> r[i].previous == r[i - 1])
  }

  /** alt_llist_insert: `entry` becomes the first entry of the list `r`. */
  method Insert(list: Alarm, entry: Alarm, ghost r: seq<Alarm>)
    requires Ring(r) && r[0] == list && entry !in r
    modifies r`next, r`previous, entry`next, entry`previous
    ensures Ring([list, entry] + r[1..])
  {
    entry.previous := list;
    entry.next := list.next;
    list.next.previous := entry;
    list.next := entry;
  }

  /** alt_llist_remove of the `k`th node of a list, or harmlessly of an entry linked to itself (`r` empty). */
  method Remove(entry: Alarm, ghost r: seq<Alarm>, ghost k: nat)
    requires if r == [] then entry.next == entry && entry.previous == entry else
             Ring(r) && 0 < k < |r| - 1 && r[k] == entry
    modifies r`next, r`previous, entry`next, entry`previous
    ensures r != [] ==> Ring(r[..k] + r[k + 1..])
    ensures entry.next == entry && entry.previous == entry
  {
    entry.next.previous := entry.previous;
    entry.previous.next := entry.next;
    entry.previous := entry;
    entry.next := entry;
  }
}
