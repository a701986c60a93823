/**
 The two intrusive doubly linked lists of src/common/pf_scheduler.c: lists of slots of one array,
 linked by slot numbers, where the array length (PF_MAX_TIMEOUTS) stands for "none".
 */
module SlotLists {
  import opened PendingTimers

  /** What a client keeps to refer to its timer: the slot number plus one, or UINT32_MAX. */
  class Handle {
    const name: string
    var timerIndex: nat

    constructor (name: string)
      ensures this.name == name && timerIndex == NOT_RUNNING
    {
      this.name := name;
      timerIndex := NOT_RUNNING;
    }

    predicate Running()
      reads this
    {
      timerIndex != NOT_RUNNING
    }
  }

  const NOT_RUNNING: nat := 0xFFFF_FFFF

  /** pf_scheduler_timeouts_t; `arg` is the client the callback is given, known by its handle. */
  datatype Timeout = Timeout(name: string, inUse: bool, when: nat, next: nat, prev: nat, arg: Handle?)

  function Range(lo: nat, hi: nat): (r: seq<nat>)
    requires lo <= hi
    ensures |r| == hi - lo && forall i :: 0 <= i < |r| ==> r[i] == lo + i
  {
    seq(hi - lo, i requires 0 <= i < hi - lo => lo + i)
  }

  predicate SameBody(x: Timeout, y: Timeout) {
    x.name == y.name && x.inUse == y.inUse && x.when == y.when && x.arg == y.arg
  }

  /** The links of the k-th slot of the list. */
  predicate LinkedAt(ts: seq<Timeout>, ixs: seq<nat>, k: nat)
    requires k < |ixs|
  {
    && ixs[k] < |ts|
    && ts[ixs[k]].next == (if k + 1 < |ixs| then ixs[k + 1] else |ts|)
    && ts[ixs[k]].prev == (if k > 0 then ixs[k - 1] else |ts|)
  }

  /** The slots reached from head are exactly ixs, in that order, with next and prev mutually inverse. */
  predicate IsList(ts: seq<Timeout>, head: nat, ixs: seq<nat>) {
    && (forall i, j :: 0 <= i < j < |ixs| ==> ixs[i] != ixs[j])
    && head == (if ixs == [] then |ts| else ixs[0])
    && (forall k :: 0 <= k < |ixs| ==> LinkedAt(ts, ixs, k))
  }

  lemma SlotsInRange(ts: seq<Timeout>, head: nat, ixs: seq<nat>)
    requires IsList(ts, head, ixs)
    ensures forall k :: 0 <= k < |ixs| ==> ixs[k] < |ts|
  {
    forall k | 0 <= k < |ixs|
      ensures ixs[k] < |ts|
    {
      assert LinkedAt(ts, ixs, k);
    }
  }

  /** A list is not touched by changes to the bodies of its slots, nor by any change to other slots. */
  lemma ListFrame(ts: seq<Timeout>, ts': seq<Timeout>, head: nat, ixs: seq<nat>)
    requires IsList(ts, head, ixs) && |ts'| == |ts|
    requires forall j :: 0 <= j < |ts| && j in ixs ==> ts'[j].next == ts[j].next && ts'[j].prev == ts[j].prev
    ensures IsList(ts', head, ixs)
  {
    forall k | 0 <= k < |ixs|
      ensures LinkedAt(ts', ixs, k)
    {
      assert LinkedAt(ts, ixs, k);
    }
  }

  /** Distinct slots below n: at most n of them. */
  lemma {:induction false} DistinctBound(ixs: seq<nat>, n: nat)
    requires forall k :: 0 <= k < |ixs| ==> ixs[k] < n
    requires forall i, j :: 0 <= i < j < |ixs| ==> ixs[i] != ixs[j]
    ensures |ixs| <= n
  {
    assert ixs == [] || ixs[0] < n;
    if n > 0 {
      if n - 1 in ixs {
        var k :| 0 <= k < |ixs| && ixs[k] == n - 1;
        DistinctBound(RemoveAt(ixs, k), n - 1);
      } else {
        DistinctBound(ixs, n - 1);
      }
    }
  }

  /** pf_scheduler_is_linked: walks the whole list; its loop guard assertion never fires. */
  method IsLinked(t: array<Timeout>, head: nat, ix: nat, ghost ixs: seq<nat>) returns (ret: bool)
    requires IsList(t[..], head, ixs)
    ensures ret <==> ix < t.Length && ix in ixs
  {
    ret := false;
    var cnt := 0;
    if ix < t.Length {
      SlotsInRange(t[..], head, ixs);
      DistinctBound(ixs, t.Length);
      var first := head;
      while first < t.Length
        invariant 0 <= cnt <= |ixs|
        invariant first == (if cnt < |ixs| then ixs[cnt] else t.Length)
        invariant ret <==> ix in ixs[..cnt]
        decreases |ixs| - cnt
      {
        assert LinkedAt(t[..], ixs, cnt);
        assert cnt < t.Length; // the guard against infinite loops
        if first == ix {
          ret := true;
        }
        first := t[first].next;
        cnt := cnt + 1;
      }
      assert ixs[..cnt] == ixs;
    }
  }

  /** The list after the two link updates of an unlink. */
  lemma UnlinkedList(ts: seq<Timeout>, ts': seq<Timeout>, head: nat, ixs: seq<nat>, k: nat)
    requires IsList(ts, head, ixs) && k < |ixs| && ixs[k] < |ts| == |ts'|
    requires forall j :: 0 <= j < |ts| && j in ixs && j != ixs[k] ==>
      && ts'[j].next == (if k > 0 && j == ixs[k - 1] then ts[ixs[k]].next else ts[j].next)
      && ts'[j].prev == (if k + 1 < |ixs| && j == ixs[k + 1] then ts[ixs[k]].prev else ts[j].prev)
    ensures IsList(ts', if k == 0 then ts[ixs[k]].next else head, RemoveAt(ixs, k))
  {
    var r := RemoveAt(ixs, k);
    assert LinkedAt(ts, ixs, k);
    forall i | 0 <= i < |r|
      ensures LinkedAt(ts', r, i)
    {
      var j := if i < k then i else i + 1;
      assert LinkedAt(ts, ixs, j) && r[i] == ixs[j] && ixs[j] in ixs;
    }
  }

  /** pf_scheduler_unlink: takes the slot out of the list, or changes nothing if it is not in it. */
  method Unlink(t: array<Timeout>, head: nat, ix: nat, ghost ixs: seq<nat>, ghost k: nat) returns (head': nat)
    requires IsList(t[..], head, ixs)
    requires if ix in ixs then k < |ixs| && ixs[k] == ix else true
    modifies t
    ensures ix !in ixs ==> head' == head && t[..] == old(t[..])
    ensures ix in ixs ==> IsList(t[..], head', RemoveAt(ixs, k))
    ensures forall j :: 0 <= j < t.Length ==> SameBody(t[j], old(t[j]))
    ensures forall j :: 0 <= j < t.Length && (j !in ixs || j == ix) ==> t[j] == old(t[j])
  {
    head' := head;
    if ix >= t.Length {
      SlotsInRange(t[..], head, ixs);
      return;
    }
    var linked := IsLinked(t, head, ix, ixs);
    if !linked {
      return;
    }
    ghost var ts := t[..];
    var prevIx := t[ix].prev;
    var nextIx := t[ix].next;
    assert LinkedAt(ts, ixs, k);
    if head == ix {
      head' := nextIx;
    }
    if nextIx < t.Length {
      t[nextIx] := t[nextIx].(prev := prevIx);
    }
    if prevIx < t.Length {
      t[prevIx] := t[prevIx].(next := nextIx);
    }
    UnlinkedList(ts, t[..], head, ixs, k);
  }

  function InsertAt<T>(s: seq<T>, k: nat, x: T): (r: seq<T>)
    requires k <= |s|
    ensures |r| == |s| + 1
    ensures forall i :: 0 <= i < |r| ==> r[i] == if i < k then s[i] else if i == k then x else s[i - 1]
  {
    s[..k] + [x] + s[k..]
  }

  /** The list after a slot has been linked in at place k. */
  lemma LinkedList(ts: seq<Timeout>, ts': seq<Timeout>, head: nat, ixs: seq<nat>, k: nat, ix: nat)
    requires IsList(ts, head, ixs) && k <= |ixs| && |ts'| == |ts| && ix < |ts| && ix !in ixs
    requires ts'[ix].prev == (if k > 0 then ixs[k - 1] else |ts|)
    requires ts'[ix].next == (if k < |ixs| then ixs[k] else |ts|)
    requires forall j :: 0 <= j < |ts| && j in ixs ==>
      && ts'[j].next == (if k > 0 && j == ixs[k - 1] then ix else ts[j].next)
      && ts'[j].prev == (if k < |ixs| && j == ixs[k] then ix else ts[j].prev)
    ensures IsList(ts', if k == 0 then ix else head, InsertAt(ixs, k, ix))
  {
    var r := InsertAt(ixs, k, ix);
    forall i | 0 <= i < |r|
      ensures LinkedAt(ts', r, i)
    {
      if i != k {
        var j := if i < k then i else i - 1;
        assert LinkedAt(ts, ixs, j) && r[i] == ixs[j] && ixs[j] in ixs;
      }
    }
  }

  /** The case of no position: the slot becomes the first one. */
  method LinkFirst(t: array<Timeout>, head: nat, ix: nat, ghost ixs: seq<nat>) returns (head': nat)
    requires IsList(t[..], head, ixs) && ix < t.Length && ix !in ixs
    modifies t
    ensures IsList(t[..], head', InsertAt(ixs, 0, ix))
    ensures forall j :: 0 <= j < t.Length ==> SameBody(t[j], old(t[j]))
    ensures forall j :: 0 <= j < t.Length && j !in ixs && j != ix ==> t[j] == old(t[j])
  {
    ghost var ts := t[..];
    SlotsInRange(ts, head, ixs);
    t[ix] := t[ix].(prev := t.Length, next := head);
    if head < t.Length {
      t[head] := t[head].(prev := ix);
    }
    head' := ix;
    LinkedList(ts, t[..], head, ixs, 0, ix);
  }

  /** The case of a position in the list. */
  method LinkInFront(t: array<Timeout>, head: nat, ix: nat, pos: nat, ghost ixs: seq<nat>, ghost k: nat)
    returns (head': nat)
    requires IsList(t[..], head, ixs) && ix < t.Length && ix !in ixs && k < |ixs| && pos == ixs[k] < t.Length
    modifies t
    ensures IsList(t[..], head', InsertAt(ixs, k, ix))
    ensures forall j :: 0 <= j < t.Length ==> SameBody(t[j], old(t[j]))
    ensures forall j :: 0 <= j < t.Length && j !in ixs && j != ix ==> t[j] == old(t[j])
  {
    ghost var ts := t[..];
    assert head == ixs[0] && LinkedAt(ts, ixs, k);
    head' := head;
    var prevIx := t[pos].prev;
    if prevIx < t.Length {
      t[prevIx] := t[prevIx].(next := ix);
    }
    t[pos] := t[pos].(prev := ix);
    t[ix] := t[ix].(next := pos, prev := prevIx);
    if head == pos {
      head' := ix;
    }
    LinkedList(ts, t[..], head, ixs, k, ix);
  }

  /** pf_scheduler_link_before; k is the place of pos in the list, or 0 for "first". */
  method LinkBefore(t: array<Timeout>, head: nat, ix: nat, pos: nat, ghost ixs: seq<nat>, ghost k: nat)
    returns (head': nat)
    requires IsList(t[..], head, ixs)
    requires k <= |ixs| && (if pos >= t.Length then k == 0 else k < |ixs| && pos == ixs[k])
    modifies t
    ensures ix >= t.Length || ix in ixs ==> head' == head && t[..] == old(t[..])
    ensures ix < t.Length && ix !in ixs ==> IsList(t[..], head', InsertAt(ixs, k, ix))
    ensures forall j :: 0 <= j < t.Length ==> SameBody(t[j], old(t[j]))
    ensures forall j :: 0 <= j < t.Length && j !in ixs && j != ix ==> t[j] == old(t[j])
  {
    head' := head;
    if ix >= t.Length {
      return;
    }
    var linked := IsLinked(t, head, ix, ixs);
    if linked {
      return;
    }
    if pos >= t.Length {
      head' := LinkFirst(t, head, ix, ixs);
    } else {
      head' := LinkInFront(t, head, ix, pos, ixs, k);
    }
  }

  /** pf_scheduler_link_after in a list with the position, which is the slot before place k. */
  method LinkBehind(t: array<Timeout>, head: nat, ix: nat, pos: nat, ghost ixs: seq<nat>, ghost k: nat)
    requires IsList(t[..], head, ixs) && ix < t.Length && ix !in ixs && 0 < k <= |ixs| && pos == ixs[k - 1] < t.Length
    modifies t
    ensures IsList(t[..], head, InsertAt(ixs, k, ix))
    ensures forall j :: 0 <= j < t.Length ==> SameBody(t[j], old(t[j]))
    ensures forall j :: 0 <= j < t.Length && j !in ixs && j != ix ==> t[j] == old(t[j])
  {
    ghost var ts := t[..];
    assert LinkedAt(ts, ixs, k - 1);
    var nextIx := t[pos].next;
    if nextIx < t.Length {
      t[nextIx] := t[nextIx].(prev := ix);
    }
    t[pos] := t[pos].(next := ix);
    t[ix] := t[ix].(prev := pos, next := nextIx);
    LinkedList(ts, t[..], head, ixs, k, ix);
  }

  /** pf_scheduler_link_after; pos is the slot before place k. */
  method LinkAfter(t: array<Timeout>, head: nat, ix: nat, pos: nat, ghost ixs: seq<nat>, ghost k: nat)
    returns (head': nat)
    requires IsList(t[..], head, ixs)
    requires k <= |ixs| && (if pos >= t.Length then k == 0 else 0 < k && pos == ixs[k - 1])
    modifies t
    ensures ix >= t.Length || ix in ixs ==> head' == head && t[..] == old(t[..])
    ensures ix < t.Length && ix !in ixs ==> IsList(t[..], head', InsertAt(ixs, k, ix))
    ensures forall j :: 0 <= j < t.Length ==> SameBody(t[j], old(t[j]))
    ensures forall j :: 0 <= j < t.Length && j !in ixs && j != ix ==> t[j] == old(t[j])
  {
    head' := head;
    if ix >= t.Length {
      return;
    }
    var linked := IsLinked(t, head, ix, ixs);
    if linked {
      return;
    }
    if pos >= t.Length {
      head' := LinkFirst(t, head, ix, ixs);
    } else {
      LinkBehind(t, head, ix, pos, ixs, k);
    }
  }
}
