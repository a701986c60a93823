/**
 The bounded ring that pf_alarm.c uses for incoming and for outgoing alarms: the accountant
 (read index, write index, count) together with the slots.
 */
module RingQueue {
  import opened Options

  /** The slot of the i-th place counted from the read index. */
  function At(read: nat, i: nat, n: nat): nat {
    if read + i < n then read + i else read + i - n
  }

  /** A slot holds an item exactly if it lies in the live window. */
  predicate LiveWindow<T>(s: seq<Option<T>>, read: nat, count: nat) {
    && read < |s| && count <= |s|
    && (forall i :: 0 <= i < |s| ==> (s[At(read, i, |s|)].Some? <==> i < count))
  }

  function Items<T>(s: seq<Option<T>>, read: nat, count: nat): (c: seq<T>)
    requires LiveWindow(s, read, count)
    ensures |c| == count
  {
    seq(count, i requires 0 <= i < count => s[At(read, i, |s|)].value)
  }

  /** Storing at the write index appends. */
  lemma StoreAppends<T>(s: seq<Option<T>>, read: nat, count: nat, x: T)
    requires LiveWindow(s, read, count) && count < |s|
    ensures var s' := s[At(read, count, |s|) := Some(x)];
      LiveWindow(s', read, count + 1) && Items(s', read, count + 1) == Items(s, read, count) + [x]
  {
    assert forall i :: 0 <= i < |s| && i != count ==> At(read, i, |s|) != At(read, count, |s|);
  }

  /** Clearing at the read index, and moving it on, takes the oldest item off. */
  lemma ClearRemoves<T>(s: seq<Option<T>>, read: nat, count: nat)
    requires LiveWindow(s, read, count) && count > 0
    ensures s[read].Some?
    ensures var s' := s[read := None]; var read' := if read + 1 >= |s| then 0 else read + 1;
      && LiveWindow(s', read', count - 1)
      && Items(s, read, count) == [s[read].value] + Items(s', read', count - 1)
  {
    var s' := s[read := None];
    var read' := if read + 1 >= |s| then 0 else read + 1;
    assert At(read, 0, |s|) == read;
    forall i | 0 <= i < |s|
      ensures s'[At(read', i, |s|)].Some? <==> i < count - 1
      ensures i < count - 1 ==> s'[At(read', i, |s|)] == s[At(read, i + 1, |s|)]
    {
      if i < |s| - 1 {
        assert At(read', i, |s|) == At(read, i + 1, |s|) != read;
      } else {
        assert At(read', i, |s|) == read;
      }
    }
  }

  class RingQueue<T> {
    const slots: array<Option<T>>   // items; the length is PNET_MAX_ALARMS
    var readIndex: nat
    var writeIndex: nat
    var count: nat
    var available: bool             // the mutex exists

    ghost predicate Valid()
      reads this, slots
    {
      LiveWindow(slots[..], readIndex, count) && writeIndex == At(readIndex, count, slots.Length)
    }

    /** The queued items, oldest first. */
    ghost function Contents(): (c: seq<T>)
      requires Valid()
      reads this, slots
      ensures |c| == count
    {
      Items(slots[..], readIndex, count)
    }

    constructor (size: nat)
      requires size > 0
      ensures Valid() && Contents() == [] && available && slots.Length == size && fresh(slots)
    {
      slots := new Option<T>[size](_ => None);
      readIndex, writeIndex, count, available := 0, 0, 0, true;
    }

    /** pf_alarm_receive_queue_post and pf_alarm_send_queue_post. */
    method Post(x: T) returns (ok: bool)
      requires Valid()
      modifies this, slots
      ensures Valid() && available == old(available)
      ensures ok <==> available && old(count) < slots.Length
      ensures Contents() == if ok then old(Contents()) + [x] else old(Contents())
      ensures slots[..] == if ok then old(slots[..])[old(writeIndex) := Some(x)] else old(slots[..])
    {
      if !available || count >= slots.Length {
        return false;
      }
      StoreAppends(slots[..], readIndex, count, x);
      slots[writeIndex] := Some(x);
      writeIndex := writeIndex + 1;
      if writeIndex >= slots.Length {
        writeIndex := 0;
      }
      count := count + 1;
      ok := true;
    }

    /** pf_alarm_receive_queue_fetch: the slot is cleared, so that its buffer has one owner. */
    method Fetch() returns (x: Option<T>)
      requires Valid()
      modifies this, slots
      ensures Valid() && available == old(available)
      ensures x.Some? <==> available && old(Contents()) != []
      ensures if x.Some? then old(Contents()) == [x.value] + Contents() else Contents() == old(Contents())
      ensures x.Some? ==> old(slots[readIndex]) == x && slots[..] == old(slots[..])[old(readIndex) := None]
      ensures x.None? ==> slots[..] == old(slots[..]) && readIndex == old(readIndex)
    {
      if !available || count == 0 {
        return None;
      }
      ClearRemoves(slots[..], readIndex, count);
      x := slots[readIndex];
      slots[readIndex] := None;
      readIndex := readIndex + 1;
      if readIndex >= slots.Length {
        readIndex := 0;
      }
      count := count - 1;
    }
  }
}
