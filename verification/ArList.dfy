/**
 The application's list of ARs, pn_logger/app_utils.c and pn_logger/logger_common.c: a fixed array whose
 unused entries hold an arep that no AR has. Entries are deleted during iteration, which leaves holes, and
 moved together when the iteration is over.
 */
module ArList {
  /** UINT32_MAX: the arep of an unused entry. */
  const NONE: int := 0xffff_ffff

  /** A mask of events is the set of its bits. */
  type Mask = set<nat>

  datatype Ar = Ar(arep: nat, events: Mask)

  predicate Used(a: Ar) {
    a.arep != NONE
  }

  predicate Pending(a: Ar, event: Mask) {
    a.events * event != {}
  }

  /** The used entries, in order. */
  function Live(s: seq<Ar>): seq<Ar> {
    if s == [] then []
    else Live(s[..|s| - 1]) + if Used(s[|s| - 1]) then [s[|s| - 1]] else []
  }

  /** The number of used entries before the first unused one. */
  function Prefix(s: seq<Ar>): (n: nat)
    ensures n <= |s|
    ensures forall i :: 0 <= i < n ==> Used(s[i])
    ensures n < |s| ==> !Used(s[n])
  {
    if s == [] || !Used(s[0]) then 0
    else
      assert forall i :: 0 < i < |s| ==> s[i] == s[1..][i - 1];
      1 + Prefix(s[1..])
  }

  /** No unused entry lies before a used one. */
  predicate HoleFree(s: seq<Ar>) {
    forall i :: Prefix(s) <= i < |s| ==> !Used(s[i])
  }

  predicate Distinct(s: seq<Ar>) {
    forall i, j :: 0 <= i < j < |s| ==> s[i].arep != s[j].arep
  }

  lemma {:induction false} LiveJoin(a: seq<Ar>, b: seq<Ar>)
    ensures Live(a + b) == Live(a) + Live(b)
    decreases |b|
  {
    if b == [] {
      assert a + b == a;
    } else {
      var last := |b| - 1;
      assert (a + b)[..|a| + last] == a + b[..last];
      LiveJoin(a, b[..last]);
    }
  }

  lemma {:induction false} LiveNone(s: seq<Ar>)
    requires forall i :: 0 <= i < |s| ==> !Used(s[i])
    ensures Live(s) == []
    decreases |s|
  {
    if s != [] {
      LiveNone(s[..|s| - 1]);
    }
  }

  lemma {:induction false} LiveAll(s: seq<Ar>)
    requires forall i :: 0 <= i < |s| ==> Used(s[i])
    ensures Live(s) == s
    decreases |s|
  {
    if s != [] {
      LiveAll(s[..|s| - 1]);
    }
  }

  /** A list without holes is the prefix of used entries. */
  lemma LivePrefix(s: seq<Ar>, n: nat)
    requires n <= |s|
    requires forall i :: 0 <= i < n ==> Used(s[i])
    requires forall i :: n <= i < |s| ==> !Used(s[i])
    ensures Live(s) == s[..n] && HoleFree(s)
  {
    var used, holes := s[..n], s[n..];
    assert s == used + holes;
    UsedThenHoles(used, holes);
  }

  lemma UsedThenHoles(used: seq<Ar>, holes: seq<Ar>)
    requires forall i :: 0 <= i < |used| ==> Used(used[i])
    requires forall i :: 0 <= i < |holes| ==> !Used(holes[i])
    ensures Live(used + holes) == used
  {
    LiveJoin(used, holes);
    LiveAll(used);
    LiveNone(holes);
  }

  /** The first entry is in use exactly when the list has entries. */
  lemma HeadIsLive(s: seq<Ar>)
    requires HoleFree(s) && s != []
    ensures Used(s[0]) <==> Live(s) != []
  {
    LivePrefix(s, Prefix(s));
  }

  /** Moving the next used entry into a hole keeps the list. */
  lemma MoveKeepsLive(s: seq<Ar>, i: nat, j: nat)
    requires i < j < |s|
    requires forall k :: i <= k < j ==> !Used(s[k])
    ensures Live(s[i := s[j]][j := s[j].(arep := NONE)]) == Live(s)
  {
    var t := s[i := s[j]][j := s[j].(arep := NONE)];
    PartsMoved(s, t, i, j);
    var front, back := s[..i], s[j + 1..];
    LiveAround(front, s[i..j], [s[j]] + back);
    LiveAround(front + [s[j]], t[i + 1..j + 1], back);
    LiveJoin([s[j]], back);
    LiveJoin(front, [s[j]]);
  }

  lemma PartsMoved(s: seq<Ar>, t: seq<Ar>, i: nat, j: nat)
    requires i < j < |s| && t == s[i := s[j]][j := s[j].(arep := NONE)]
    ensures s == s[..i] + (s[i..j] + ([s[j]] + s[j + 1..]))
    ensures t == (s[..i] + [s[j]]) + (t[i + 1..j + 1] + s[j + 1..])
  {
  }

  lemma LiveAround(front: seq<Ar>, holes: seq<Ar>, back: seq<Ar>)
    requires forall k :: 0 <= k < |holes| ==> !Used(holes[k])
    ensures Live(front + (holes + back)) == Live(front) + Live(back)
  {
    LiveJoin(front, holes + back);
    LiveJoin(holes, back);
    LiveNone(holes);
  }

  // ---------------------------------------------------------------------------------------------
  // What the two operations do to the list

  /** The position of an arep, or the length. */
  function Find(s: seq<Ar>, arep: nat): (k: nat)
    ensures k <= |s|
    ensures k < |s| ==> s[k].arep == arep
    ensures forall i :: 0 <= i < k ==> s[i].arep != arep
    decreases |s|
  {
    if s == [] then 0
    else if s[0].arep == arep then 0
    else
      var k := Find(s[1..], arep);
      assert forall i :: 0 < i < k + 1 ==> s[i] == s[1..][i - 1];
      k + 1
  }

  /** app_event_set in an array of max entries */
  function Set(s: seq<Ar>, arep: nat, event: Mask, add: bool, max: nat): seq<Ar> {
    var k := Find(s, arep);
    if k < |s| then s[k := s[k].(events := s[k].events + event)]
    else if add && |s| < max && arep != NONE then s + [Ar(arep, event)]
    else s
  }

  /** The entries that are left when every pending one was handled; drop is what the handler returns. */
  function Handled(s: seq<Ar>, event: Mask, drop: nat -> bool): seq<Ar> {
    if s == [] then []
    else
      var a := s[|s| - 1];
      var rest := Handled(s[..|s| - 1], event, drop);
      if !Pending(a, event) then rest + [a]
      else if drop(a.arep) then rest
      else rest + [a.(events := a.events - event)]
  }

  /** The handler's calls. */
  function Called(s: seq<Ar>, event: Mask): seq<nat> {
    if s == [] then []
    else Called(s[..|s| - 1], event) + if Pending(s[|s| - 1], event) then [s[|s| - 1].arep] else []
  }

  /** Setting an event keeps the areps distinct, and every other AR where and what it was. */
  lemma SetKeepsOthers(s: seq<Ar>, arep: nat, event: Mask, add: bool, max: nat)
    requires Distinct(s)
    ensures var r := Set(s, arep, event, add, max);
      && Distinct(r) && |s| <= |r| <= |s| + 1
      && (forall i :: 0 <= i < |s| ==> r[i].arep == s[i].arep && (s[i].arep != arep ==> r[i] == s[i]))
      && (event != {} && arep != NONE && ((add && |s| < max) || exists a <- s :: a.arep == arep)
          ==> exists a <- r :: a.arep == arep && Pending(a, event))
  {
    var k := Find(s, arep);
    var r := Set(s, arep, event, add, max);
    if k < |s| {
      assert (s[k].events + event) * event == event;
      assert r[k] in r;
    } else if add && |s| < max && arep != NONE {
      assert r[|s|] in r;
      assert event * event == event;
    }
  }

  /**
   Setting an event adds it to what is pending for the AR already, and keeps all else. An AR that is not in the list is added if
   and only if that is wanted, there is room, and the arep is a real one.
   */
  lemma SetExactly(s: seq<Ar>, arep: nat, event: Mask, add: bool, max: nat)
    requires Distinct(s)
    ensures var r := Set(s, arep, event, add, max);
      && (Has(s, arep) ==> |r| == |s|)
      && (forall i :: 0 <= i < |s| ==> r[i] == if s[i].arep == arep then Ar(arep, s[i].events + event) else s[i])
      && (!Has(s, arep) ==> r == s + if add && |s| < max && arep != NONE then [Ar(arep, event)] else [])
  {
    var k := Find(s, arep);
    if k < |s| {
      assert s[k] in s;
    }
  }

  /** The order of the areps that are left is the order they had. */
  predicate InOrderOf(r: seq<Ar>, s: seq<Ar>)
    decreases |s|
  {
    if r == [] then true
    else if s == [] then false
    else if r[|r| - 1].arep == s[|s| - 1].arep then InOrderOf(r[..|r| - 1], s[..|s| - 1])
    else InOrderOf(r, s[..|s| - 1])
  }

  predicate Has(s: seq<Ar>, arep: nat) {
    exists a <- s :: a.arep == arep
  }

  lemma HasLonger(s: seq<Ar>, a: Ar, arep: nat)
    ensures Has(s + [a], arep) <==> Has(s, arep) || a.arep == arep
  {
    assert a in s + [a];
    if b :| b in s && b.arep == arep {
      assert b in s + [a];
    }
  }

  lemma LastIsNew(s: seq<Ar>)
    requires s != [] && Distinct(s)
    ensures !Has(s[..|s| - 1], s[|s| - 1].arep)
    ensures Distinct(s[..|s| - 1]) && s == s[..|s| - 1] + [s[|s| - 1]]
  {
  }

  lemma {:induction false} HandledAreps(s: seq<Ar>, event: Mask, drop: nat -> bool, arep: nat)
    requires Has(Handled(s, event, drop), arep)
    ensures Has(s, arep)
    decreases |s|
  {
    if s != [] {
      var rest, a := s[..|s| - 1], s[|s| - 1];
      var r := Handled(rest, event, drop);
      assert s == rest + [a];
      HasLonger(rest, a, arep);
      HasLonger(r, a, arep);
      HasLonger(r, a.(events := a.events - event), arep);
      if Has(r, arep) {
        HandledAreps(rest, event, drop, arep);
      }
    }
  }

  /** The ARs that are left keep their order and stay distinct, and none has the event pending any more. */
  lemma {:induction false} HandledInOrder(s: seq<Ar>, event: Mask, drop: nat -> bool)
    requires Distinct(s)
    ensures InOrderOf(Handled(s, event, drop), s)
    ensures Distinct(Handled(s, event, drop))
    ensures forall a <- Handled(s, event, drop) :: !Pending(a, event)
    decreases |s|
  {
    if s != [] {
      var rest, a := s[..|s| - 1], s[|s| - 1];
      var r := Handled(rest, event, drop);
      HandledInOrder(rest, event, drop);
      LastIsNew(s);
      if Has(r, a.arep) {
        HandledAreps(rest, event, drop, a.arep);
      }
      if Pending(a, event) && drop(a.arep) {
        InOrderLonger(r, rest, a);
      } else {
        var b := if Pending(a, event) then a.(events := a.events - event) else a;
        assert Handled(s, event, drop) == r + [b];
        SnocInOrder(r, rest, b, a);
      }
    }
  }

  lemma SnocInOrder(r: seq<Ar>, s: seq<Ar>, b: Ar, a: Ar)
    requires InOrderOf(r, s) && a.arep == b.arep
    ensures InOrderOf(r + [b], s + [a])
  {
    assert (r + [b])[..|r|] == r && (s + [a])[..|s|] == s;
  }

  lemma InOrderLonger(r: seq<Ar>, s: seq<Ar>, a: Ar)
    requires InOrderOf(r, s) && !Has(r, a.arep)
    ensures InOrderOf(r, s + [a])
  {
    assert (s + [a])[..|s|] == s;
  }

  /**
   What becomes of each AR: it is gone exactly when the event was pending and the handler returned true,
   and otherwise it has the events it had without this one.
   */
  lemma {:induction false} HandledExactly(s: seq<Ar>, event: Mask, drop: nat -> bool, a: Ar)
    requires Distinct(s) && a in s
    ensures Has(Handled(s, event, drop), a.arep) <==> !(Pending(a, event) && drop(a.arep))
    ensures Has(Handled(s, event, drop), a.arep) ==> a.(events := a.events - event) in Handled(s, event, drop)
    decreases |s|
  {
    var rest, last := s[..|s| - 1], s[|s| - 1];
    var r := Handled(rest, event, drop);
    var b := if Pending(last, event) then last.(events := last.events - event) else last;
    LastIsNew(s);
    HasLonger(r, b, a.arep);
    if a == last {
      if Has(r, a.arep) {
        HandledAreps(rest, event, drop, a.arep);
      }
      if !Pending(a, event) {
        assert a.events - event == a.events by {
          forall x | x in a.events ensures x !in event {
            assert x in event ==> x in a.events * event;
          }
        }
      }
    } else {
      HandledExactly(rest, event, drop, a);
      assert a in rest && last.arep != a.arep;
    }
  }

  /** The handler runs once for every AR with the event pending and for no other, in the order of the list. */
  lemma {:induction false} CalledOnce(s: seq<Ar>, event: Mask)
    requires Distinct(s)
    ensures forall i, j :: 0 <= i < j < |Called(s, event)| ==> Called(s, event)[i] != Called(s, event)[j]
    ensures forall x :: x in Called(s, event) <==> exists a <- s :: a.arep == x && Pending(a, event)
    decreases |s|
  {
    if s != [] {
      var rest, last := s[..|s| - 1], s[|s| - 1];
      CalledOnce(rest, event);
      LastIsNew(s);
      forall x ensures x in Called(s, event) <==> exists a <- s :: a.arep == x && Pending(a, event) {
        if a :| a in s && a.arep == x && Pending(a, event) {
          assert a == last || a in rest;
        }
        if x in Called(s, event) {
          assert last in s;
          if x in Called(rest, event) {
            var a :| a in rest && a.arep == x && Pending(a, event);
            assert a in s;
          }
        }
      }
      assert last.arep in Called(rest, event) ==> Has(rest, last.arep);
    }
  }

  lemma {:induction false} FindInFront(s: seq<Ar>, last: Ar, arep: nat)
    requires Has(s, arep)
    ensures Find(s + [last], arep) == Find(s, arep) < |s|
  {
    assert (s + [last])[0] == s[0];
    if s[0].arep != arep {
      assert s == [s[0]] + s[1..] && (s + [last])[1..] == s[1..] + [last];
      FindInFront(s[1..], last, arep);
    }
  }

  /** And these calls are in the order of the list. */
  lemma {:induction false} CalledInOrder(s: seq<Ar>, event: Mask)
    requires Distinct(s)
    ensures forall i, j :: 0 <= i < j < |Called(s, event)| ==>
      Find(s, Called(s, event)[i]) < Find(s, Called(s, event)[j])
    decreases |s|
  {
    if s != [] {
      var rest, last := s[..|s| - 1], s[|s| - 1];
      var before := Called(rest, event);
      CalledInOrder(rest, event);
      CalledOnce(rest, event);
      LastIsNew(s);
      forall i | 0 <= i < |before|
        ensures Find(s, before[i]) == Find(rest, before[i]) < |rest|
      {
        assert before[i] in before;
        FindInFront(rest, last, before[i]);
      }
      assert forall i :: 0 <= i < |rest| ==> s[i].arep != last.arep;
    }
  }

  lemma {:induction false} LiveHandled(s: seq<Ar>, t: seq<Ar>, event: Mask, drop: nat -> bool)
    requires |s| == |t| && forall i :: 0 <= i < |s| ==> Used(s[i]) && t[i] == After(s[i], event, drop)
    ensures Live(t) == Handled(s, event, drop)
    decreases |s|
  {
    if s != [] {
      LiveHandled(s[..|s| - 1], t[..|t| - 1], event, drop);
    }
  }

  /** An entry behind the iterator. */
  function After(a: Ar, event: Mask, drop: nat -> bool): Ar {
    if !Pending(a, event) then a
    else Ar(if drop(a.arep) then NONE else a.arep, a.events - event)
  }

  // ---------------------------------------------------------------------------------------------
  // The array

  class Api {
    const ar: array<Ar>

    /** app_init */
    constructor (max: nat)
      requires 0 < max < 0x7fff
      ensures fresh(ar) && ar.Length == max && Valid() && List() == []
    {
      ar := new Ar[max](_ => Ar(NONE, {}));
      new;
      LiveNone(ar[..]);
    }

    ghost predicate Valid()
      reads ar
    {
      && 0 < ar.Length < 0x7fff
      && HoleFree(ar[..])
      && Distinct(Live(ar[..]))
    }

    /** The entries of the list. */
    ghost function List(): seq<Ar>
      reads ar
    {
      Live(ar[..])
    }

    /** app_is_connected_to_controller */
    method IsConnected() returns (r: bool)
      requires Valid()
      ensures r <==> List() != []
    {
      HeadIsLive(ar[..]);
      return ar[0].arep != NONE;
    }

    /** app_ar_add_arep */
    method AddArep(arep: nat) returns (at: nat)
      requires ar.Length > 0
      modifies ar
      ensures at <= ar.Length
      ensures forall i :: 0 <= i < at ==> Used(old(ar[i]))
      ensures at < ar.Length ==> !Used(old(ar[at])) && ar[..] == old(ar[..])[at := Ar(arep, {})]
      ensures at == ar.Length ==> ar[..] == old(ar[..])
    {
      at := 0;
      while at < ar.Length
        invariant at <= ar.Length
        invariant forall i :: 0 <= i < at ==> Used(ar[i])
        invariant ar[..] == old(ar[..])
      {
        if ar[at].arep == NONE {
          ar[at] := Ar(arep, {});
          return;
        }
        at := at + 1;
      }
    }

    /** One move of the compaction: the next used entry goes into the hole. */
    method Move(i: nat, j: nat)
      requires i < j < ar.Length && forall k :: i <= k < j ==> !Used(ar[k])
      modifies ar
      ensures ar[..] == old(ar[..])[i := old(ar[j])][j := old(ar[j]).(arep := NONE)]
      ensures List() == old(List())
    {
      MoveKeepsLive(ar[..], i, j);
      ar[i] := ar[j];
      ar[j] := ar[j].(arep := NONE);
    }

    /** The loops at the end of an iteration that deleted entries. */
    method Compact()
      modifies ar
      ensures HoleFree(ar[..])
      ensures List() == old(List())
    {
      var i := 0;
      while i < ar.Length
        invariant i <= ar.Length
        invariant forall k :: 0 <= k < i ==> Used(ar[k])
        invariant List() == old(List())
      {
        if ar[i].arep == NONE {
          var j := i + 1;
          while j < ar.Length && ar[j].arep == NONE
            invariant i < j <= ar.Length
            invariant forall k :: i <= k < j ==> !Used(ar[k])
          {
            j := j + 1;
          }
          if j < ar.Length {
            Move(i, j);
          }
          if j >= ar.Length - 1 {
            break;
          }
        }
        i := i + 1;
      }
    }

    /** The loop of app_event_set: the iterator stops at the AR, or at the end of the list. */
    method Seek(iter: Iterator, arep: nat) returns (found: bool)
      requires Valid() && iter.list == this && iter.index == -1 && !iter.modified
      modifies iter`index, ar
      ensures ar[..] == old(ar[..])
      ensures var n := Prefix(ar[..]); var k := Find(ar[..n], arep);
        iter.index == k && (found <==> k < n)
    {
      ghost var s := ar[..];
      ghost var n := Prefix(s);
      ghost var k := Find(s[..n], arep);
      found := iter.Next();
      while found
        invariant ar[..] == s
        invariant 0 <= iter.index <= k
        invariant found <==> iter.index < n
        decreases n - iter.index
      {
        if ar[iter.index].arep == arep {
          return;
        }
        found := iter.Next();
      }
    }

    /** The part of app_event_set that adds an AR. */
    method AddWithEvent(arep: nat, event: Mask)
      requires ar.Length > 0 && HoleFree(ar[..])
      modifies ar
      ensures var s := old(ar[..]); var n := Prefix(s);
        ar[..] == if n < |s| then s[n := Ar(arep, {} + event)] else s
    {
      ghost var s := ar[..];
      var at := AddArep(arep);
      if at < ar.Length {
        assert at == Prefix(s);
        ar[at] := ar[at].(events := ar[at].events + event);
      }
    }

    /** app_event_set, apart from waking up the main loop */
    method EventSet(arep: nat, event: Mask, add: bool)
      requires Valid()
      modifies ar
      ensures Valid()
      ensures List() == Set(old(List()), arep, event, add, ar.Length)
    {
      ghost var s := ar[..];
      ghost var n := Prefix(s);
      LivePrefix(s, n);
      var iter := new Iterator(this);
      var found := Seek(iter, arep);
      if found {
        ar[iter.index] := ar[iter.index].(events := ar[iter.index].events + event);
      }
      var done := iter.Done();
      if add && done {
        AddWithEvent(arep, event);
      }
      SetInArray(s, n, ar[..], arep, event, add);
    }

    /** One round of app_handle_event_ar */
    method HandleCurrent(iter: Iterator, event: Mask, drop: nat -> bool) returns (called: seq<nat>)
      requires iter.list == this && 0 <= iter.index < ar.Length
      modifies ar, iter`modified
      ensures ar[..] == old(ar[..])[iter.index := After(old(ar[..])[iter.index], event, drop)]
      ensures called == if Pending(old(ar[..])[iter.index], event) then [old(ar[..])[iter.index].arep] else []
      ensures old(iter.modified) ==> iter.modified
      ensures iter.modified || ar[..][iter.index].arep == old(ar[..])[iter.index].arep
    {
      var k := iter.index;
      called := [];
      if ar[k].events * event != {} {
        ar[k] := ar[k].(events := ar[k].events - event);
        called := [ar[k].arep];
        if drop(ar[k].arep) {
          iter.DeleteCurrent();
        }
      }
    }

    /** app_handle_event_ar for a handler that leaves the list alone; calls are the areps it is given. */
    method HandleEvent(event: Mask, drop: nat -> bool) returns (calls: seq<nat>)
      requires Valid()
      modifies ar
      ensures Valid()
      ensures List() == Handled(old(List()), event, drop)
      ensures calls == Called(old(List()), event)
    {
      ghost var s := ar[..];
      calls := [];
      var iter := new Iterator(this);
      var found := iter.Next();
      HandlingStarts(s, found, event, drop);
      while found
        invariant iter.list == this && fresh(iter) && iter.index >= 0
        invariant Handling(s, ar[..], iter.index, found, iter.modified, calls, event, drop)
        decreases Prefix(s) - iter.index
      {
        ghost var k, t, modified := iter.index, ar[..], iter.modified;
        var called := HandleCurrent(iter, event, drop);
        ghost var t' := ar[..];
        found := iter.Next();
        HandlingStep(s, t, t', ar[..], k, modified, iter.modified, found, calls, called, event, drop);
        calls := calls + called;
      }
      HandlingEnds(s, ar[..], iter.index, iter.modified, calls, event, drop);
    }
  }

  /** The first k entries are handled, the others are what they were. */
  ghost predicate Progress(s: seq<Ar>, t: seq<Ar>, k: nat, event: Mask, drop: nat -> bool, modified: bool) {
    && k <= |s| == |t|
    && (forall i :: 0 <= i < k ==> t[i] == After(s[i], event, drop) && (modified || Used(t[i])))
    && (forall i :: k <= i < |s| ==> t[i] == s[i])
  }

  lemma ProgressStep(s: seq<Ar>, t: seq<Ar>, t': seq<Ar>, k: nat, event: Mask, drop: nat -> bool,
                     modified: bool, modified': bool)
    requires k < |s| && Progress(s, t, k, event, drop, modified) && t' == t[k := After(s[k], event, drop)]
    requires (modified ==> modified') && (modified' || Used(t'[k]))
    ensures Progress(s, t', k + 1, event, drop, modified')
    ensures Called(s[..k + 1], event) == Called(s[..k], event) + if Pending(s[k], event) then [s[k].arep] else []
  {
    assert s[..k + 1][..k] == s[..k];
  }

  lemma ProgressDone(s: seq<Ar>, t: seq<Ar>, n: nat, event: Mask, drop: nat -> bool, modified: bool)
    requires Progress(s, t, n, event, drop, modified)
    requires forall i :: 0 <= i < n ==> Used(s[i])
    requires forall i :: n <= i < |s| ==> !Used(s[i])
    ensures Live(t) == Handled(s[..n], event, drop)
    ensures !modified || |s| == 1 ==> HoleFree(t)
  {
    if !modified {
      LivePrefix(t, n);
    }
    LiveHandled(s[..n], t[..n], event, drop);
    LiveNone(t[n..]);
    LiveJoin(t[..n], t[n..]);
    assert t == t[..n] + t[n..];
  }

  /** What app_handle_event_ar has done when its iterator stands at k: found means that the list goes on. */
  ghost predicate Handling(s: seq<Ar>, t: seq<Ar>, k: nat, found: bool, modified: bool, calls: seq<nat>,
                           event: Mask, drop: nat -> bool) {
    && k <= Prefix(s) && (found <==> k < Prefix(s))
    && calls == Called(s[..k], event)
    && |t| == |s|
    && (found ==> Progress(s, t, k, event, drop, modified))
    && (!found ==> HoleFree(t) && Live(t) == Handled(s[..k], event, drop))
  }

  lemma HandlingStarts(s: seq<Ar>, found: bool, event: Mask, drop: nat -> bool)
    requires HoleFree(s) && s != [] && (found <==> Used(s[0]))
    ensures Handling(s, s, 0, found, false, [], event, drop)
  {
    if !found {
      LivePrefix(s, 0);
    }
  }

  lemma HandlingEnds(s: seq<Ar>, t: seq<Ar>, k: nat, modified: bool, calls: seq<nat>, event: Mask, drop: nat -> bool)
    requires HoleFree(s) && Distinct(Live(s)) && Handling(s, t, k, false, modified, calls, event, drop)
    ensures HoleFree(t) && Distinct(Live(t)) && Live(t) == Handled(Live(s), event, drop) && calls == Called(Live(s), event)
  {
    LivePrefix(s, k);
    HandledInOrder(Live(s), event, drop);
  }

  lemma HandlingStep(s: seq<Ar>, t: seq<Ar>, t': seq<Ar>, t'': seq<Ar>, k: nat, modified: bool, modified': bool,
                     found: bool, calls: seq<nat>, called: seq<nat>, event: Mask, drop: nat -> bool)
    requires HoleFree(s) && Handling(s, t, k, true, modified, calls, event, drop)
    // One entry was handled
    requires t' == t[k := After(t[k], event, drop)] && called == if Pending(t[k], event) then [t[k].arep] else []
    requires (modified ==> modified') && (modified' || t'[k].arep == t[k].arep)
    // The iterator moved on, and at the end moved the entries together
    requires |t''| == |t'| && (found <==> k + 1 < |t'| && Used(t'[k + 1]))
    requires !found && modified' && |s| > 1 ==> HoleFree(t'') && Live(t'') == Live(t')
    requires found || !modified' || |s| == 1 ==> t'' == t'
    ensures Handling(s, t'', k + 1, found, modified', calls + called, event, drop)
  {
    ProgressStep(s, t, t', k, event, drop, modified, modified');
    if !found {
      ProgressDone(s, t', k + 1, event, drop, modified');
    }
  }

  /** What app_event_set leaves in the array is what Set leaves in the list. */
  lemma SetInArray(s: seq<Ar>, n: nat, t: seq<Ar>, arep: nat, event: Mask, add: bool)
    requires n <= |s| == |t|
    requires forall i :: 0 <= i < n ==> Used(s[i])
    requires forall i :: n <= i < |s| ==> !Used(s[i])
    requires
      var k := Find(s[..n], arep);
      if k < n then t == s[k := s[k].(events := s[k].events + event)]
      else if add && n < |s| then t == s[n := Ar(arep, {} + event)]
      else t == s
    ensures HoleFree(t) && Live(t) == Set(s[..n], arep, event, add, |s|)
    ensures Distinct(s[..n]) ==> Distinct(Live(t))
  {
    if Distinct(s[..n]) {
      SetKeepsOthers(s[..n], arep, event, add, |s|);
    }
    var one := Find(s[..n], arep) == n && add && n < |s| && arep != NONE;
    assert {} + event == event;
    LivePrefix(t, if one then n + 1 else n);
  }

  /** app_ar_iterator_t */
  class Iterator {
    const list: Api
    var index: int
    var modified: bool

    constructor (list: Api)
      ensures this.list == list && index == -1 && !modified
    {
      this.list, index, modified := list, -1, false;
    }

    method Next() returns (found: bool)
      requires -1 <= index < 0x7fff
      modifies this`index, list.ar
      ensures index == old(index) + 1
      ensures found <==> index < list.ar.Length && Used(old(list.ar[..])[index])
      ensures !found && modified && list.ar.Length > 1 ==> HoleFree(list.ar[..]) && list.List() == old(list.List())
      ensures found || !modified || list.ar.Length == 1 ==> list.ar[..] == old(list.ar[..])
    {
      index := index + 1;
      if index < list.ar.Length && list.ar[index].arep != NONE {
        return true;
      } else if list.ar.Length > 1 && modified {
        list.Compact();
      }
      return false;
    }

    method Done() returns (r: bool)
      requires -1 <= index
      ensures r <==> index >= list.ar.Length || (index >= 0 && !Used(list.ar[index]))
    {
      return !(index < 0 || (index < list.ar.Length && list.ar[index].arep != NONE));
    }

    method DeleteCurrent()
      requires index >= 0
      modifies this`modified, list.ar
      ensures index < list.ar.Length ==> modified && list.ar[..] == old(list.ar[..])[index := old(list.ar[index]).(arep := NONE)]
      ensures index >= list.ar.Length ==> modified == old(modified) && list.ar[..] == old(list.ar[..])
    {
      if index < list.ar.Length {
        list.ar[index] := list.ar[index].(arep := NONE);
        modified := true;
      }
    }
  }
}
