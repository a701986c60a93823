/**
 The busy list of the scheduler as a value: pending timers in list order. `uid` numbers the additions;
 it tells a timer apart from a later one in the same slot.
 */
module PendingTimers {
  import opened WrapTime

  datatype Pending<H> = Pending(slot: nat, when: nat, owner: H, uid: nat)

  /** Where pf_scheduler_add puts a timer: before the first one whose deadline is not earlier. */
  function Insert<H>(p: seq<Pending<H>>, e: Pending<H>): (r: seq<Pending<H>>)
    ensures |r| == |p| + 1
  {
    if p == [] || SDiff(e.when, p[0].when) <= 0 then [e] + p else [p[0]] + Insert(p[1..], e)
  }

  /** The place is the one a scan finds that skips all strictly earlier deadlines. */
  lemma {:induction false} InsertSplits<H>(p: seq<Pending<H>>, e: Pending<H>, k: nat)
    requires k <= |p|
    requires forall j :: 0 <= j < k ==> SDiff(e.when, p[j].when) > 0
    requires k < |p| ==> SDiff(e.when, p[k].when) <= 0
    ensures Insert(p, e) == p[..k] + [e] + p[k..]
  {
    if k > 0 {
      InsertSplits(p[1..], e, k - 1);
      assert Insert(p, e) == [p[0]] + Insert(p[1..], e);
      assert p[..k] == [p[0]] + p[1..][..k - 1] && p[1..][k - 1..] == p[k..];
    }
  }

  /** Some scan position always exists. */
  lemma {:induction false} ScanPosition<H>(p: seq<Pending<H>>, e: Pending<H>) returns (k: nat)
    ensures k <= |p|
    ensures forall j :: 0 <= j < k ==> SDiff(e.when, p[j].when) > 0
    ensures k < |p| ==> SDiff(e.when, p[k].when) <= 0
    ensures Insert(p, e) == p[..k] + [e] + p[k..]
  {
    k := 0;
    while k < |p| && SDiff(e.when, p[k].when) > 0
      invariant k <= |p|
      invariant forall j :: 0 <= j < k ==> SDiff(e.when, p[j].when) > 0
    {
      k := k + 1;
    }
    InsertSplits(p, e, k);
  }

  lemma InsertMembers<H>(p: seq<Pending<H>>, e: Pending<H>)
    ensures forall x <- Insert(p, e) :: x == e || x in p
    ensures e in Insert(p, e) && forall x <- p :: x in Insert(p, e)
  {
    var k := ScanPosition(p, e);
    assert Insert(p, e)[k] == e;
  }

  /** Every deadline lies less than 2^31 us after the base. */
  ghost predicate AllInWindow<H>(p: seq<Pending<H>>, base: int) {
    forall x <- p :: InWindow(base, x.when)
  }

  /** Earliest deadline first, as distances from the base. */
  ghost predicate Sorted<H>(p: seq<Pending<H>>, base: int) {
    forall i, j :: 0 <= i < j < |p| ==> Sub32(p[i].when, base) <= Sub32(p[j].when, base)
  }

  /**
   Insertion keeps the list sorted, keeps the order of the others, and puts the new timer behind all
   earlier and in front of all equal or later deadlines: of equal ones the last added is first.
   */
  lemma InsertKeepsSorted<H>(p: seq<Pending<H>>, e: Pending<H>, base: int) returns (k: nat)
    requires AllInWindow(p, base) && Sorted(p, base) && InWindow(base, e.when)
    ensures k <= |p| && Insert(p, e) == p[..k] + [e] + p[k..]
    ensures forall j :: 0 <= j < |p| ==> (j < k <==> Sub32(p[j].when, base) < Sub32(e.when, base))
    ensures AllInWindow(Insert(p, e), base) && Sorted(Insert(p, e), base)
  {
    k := ScanPosition(p, e);
    forall j | 0 <= j < |p|
      ensures j < k <==> Sub32(p[j].when, base) < Sub32(e.when, base)
    {
      assert p[j] in p;
      LaterIsFarther(base, e.when, p[j].when);
      if k <= j {
        assert p[k] in p;
        LaterIsFarther(base, e.when, p[k].when);
      }
    }
    InsertedIsSorted(p, e, base, k);
  }

  lemma LaterIsFarther(base: int, x: int, y: int)
    requires InWindow(base, x) && InWindow(base, y)
    ensures SDiff(x, y) > 0 <==> Sub32(x, base) > Sub32(y, base)
  {
    SDiffInWindow(base, x, y);
  }

  lemma InsertedIsSorted<H>(p: seq<Pending<H>>, e: Pending<H>, base: int, k: nat)
    requires k <= |p| && AllInWindow(p, base) && Sorted(p, base) && InWindow(base, e.when)
    requires forall j :: 0 <= j < |p| ==> (j < k <==> Sub32(p[j].when, base) < Sub32(e.when, base))
    ensures AllInWindow(p[..k] + [e] + p[k..], base) && Sorted(p[..k] + [e] + p[k..], base)
  {
    var q := p[..k] + [e] + p[k..];
    assert forall i :: 0 <= i < |q| ==> q[i] == if i < k then p[i] else if i == k then e else p[i - 1];
  }

  /** The timers that are due at a time, in list order. */
  function Due<H>(p: seq<Pending<H>>, now: int): seq<Pending<H>> {
    if p == [] then [] else (if Expired(now, p[0].when) then [p[0]] else []) + Due(p[1..], now)
  }

  /** The timers that were not taken out, in list order. */
  function Except<H>(p: seq<Pending<H>>, gone: set<nat>): seq<Pending<H>> {
    if p == [] then [] else (if p[0].uid in gone then [] else [p[0]]) + Except(p[1..], gone)
  }

  lemma {:induction false} ExceptNone<H>(p: seq<Pending<H>>, gone: set<nat>)
    requires forall x <- p :: x.uid !in gone
    ensures Except(p, gone) == p
  {
    if p != [] {
      assert forall x <- p[1..] :: x in p;
      ExceptNone(p[1..], gone);
    }
  }

  lemma {:induction false} ExceptTwice<H>(p: seq<Pending<H>>, a: set<nat>, b: set<nat>)
    ensures Except(Except(p, a), b) == Except(p, a + b)
  {
    if p != [] {
      ExceptTwice(p[1..], a, b);
      if p[0].uid !in a {
        assert Except(p, a)[1..] == Except(p[1..], a);
      } else {
        assert Except(p, a) == Except(p[1..], a);
      }
    }
  }

  lemma {:induction false} DueExcept<H>(p: seq<Pending<H>>, gone: set<nat>, now: int)
    ensures Due(Except(p, gone), now) == Except(Due(p, now), gone)
  {
    if p != [] {
      DueExcept(p[1..], gone, now);
      if p[0].uid !in gone {
        assert Except(p, gone)[1..] == Except(p[1..], gone);
      } else {
        assert Except(p, gone) == Except(p[1..], gone);
      }
      if Expired(now, p[0].when) {
        assert Due(p, now)[1..] == Due(p[1..], now);
      } else {
        assert Due(p, now) == Due(p[1..], now);
      }
    }
  }

  predicate Distinct<H>(p: seq<Pending<H>>) {
    forall i, j :: 0 <= i < j < |p| ==> p[i].uid != p[j].uid && p[i].slot != p[j].slot
  }

  function RemoveAt<T>(s: seq<T>, k: nat): (r: seq<T>)
    requires k < |s|
    ensures |r| == |s| - 1
    ensures forall i :: 0 <= i < |r| ==> r[i] == if i < k then s[i] else s[i + 1]
  {
    s[..k] + s[k + 1..]
  }

  /** Unlinking the k-th timer takes out exactly that addition. */
  lemma {:induction false} RemoveAtIsExcept<H>(p: seq<Pending<H>>, k: nat)
    requires k < |p| && Distinct(p)
    ensures RemoveAt(p, k) == Except(p, {p[k].uid})
  {
    if k == 0 {
      forall x | x in p[1..]
        ensures x.uid != p[0].uid
      {
        var i :| 1 <= i < |p| && p[i] == x;
        assert p[0].uid != p[i].uid;
      }
      ExceptNone(p[1..], {p[0].uid});
      assert RemoveAt(p, 0) == p[1..];
    } else {
      RemoveAtIsExcept(p[1..], k - 1);
      assert RemoveAt(p, k) == [p[0]] + RemoveAt(p[1..], k - 1);
    }
  }

  /** In a sorted list the first timer is due if any is. */
  lemma {:induction false} DueIsFirst<H>(p: seq<Pending<H>>, now: int, base: int)
    requires AllInWindow(p, base) && Sorted(p, base) && InWindow(base, now)
    ensures Due(p, now) == [] <==> p == [] || !Expired(now, p[0].when)
  {
    if p != [] {
      assert p[0] in p;
      SDiffInWindow(base, now, p[0].when);
      if |p| > 1 {
        assert p[1] in p && p[1..][0] == p[1];
        SDiffInWindow(base, now, p[1].when);
      }
      assert forall x <- p[1..] :: x in p;
      DueIsFirst(p[1..], now, base);
    }
  }

  predicate HasUid<H>(p: seq<Pending<H>>, uid: nat) {
    exists i :: 0 <= i < |p| && p[i].uid == uid
  }

  function Uids<H>(p: seq<Pending<H>>): set<nat> {
    set i | 0 <= i < |p| :: p[i].uid
  }

  /** The timers added before the given number, in list order. */
  function Before<H>(p: seq<Pending<H>>, n: nat): seq<Pending<H>> {
    if p == [] then [] else (if p[0].uid < n then [p[0]] else []) + Before(p[1..], n)
  }

  lemma {:induction false} BeforeAll<H>(p: seq<Pending<H>>, n: nat)
    requires forall i :: 0 <= i < |p| ==> p[i].uid < n
    ensures Before(p, n) == p
  {
    if p != [] {
      BeforeAll(p[1..], n);
    }
  }

  lemma {:induction false} BeforeJoin<H>(p: seq<Pending<H>>, q: seq<Pending<H>>, n: nat)
    ensures Before(p + q, n) == Before(p, n) + Before(q, n)
  {
    if p == [] {
      assert p + q == q;
    } else {
      assert (p + q)[1..] == p[1..] + q;
      BeforeJoin(p[1..], q, n);
    }
  }

  lemma {:induction false} BeforeTwice<H>(p: seq<Pending<H>>, m: nat, n: nat)
    requires n <= m
    ensures Before(Before(p, m), n) == Before(p, n)
  {
    if p != [] {
      BeforeTwice(p[1..], m, n);
      if p[0].uid < m {
        assert Before(p, m)[1..] == Before(p[1..], m);
      } else {
        assert Before(p, m) == Before(p[1..], m);
      }
    }
  }

  lemma {:induction false} BeforeExcept<H>(p: seq<Pending<H>>, gone: set<nat>, n: nat)
    ensures Before(Except(p, gone), n) == Except(Before(p, n), gone)
  {
    if p != [] {
      BeforeExcept(p[1..], gone, n);
      if p[0].uid in gone {
        assert Except(p, gone) == Except(p[1..], gone);
      } else {
        assert Except(p, gone)[1..] == Except(p[1..], gone);
      }
      if p[0].uid < n {
        assert Before(p, n)[1..] == Before(p[1..], n);
      } else {
        assert Before(p, n) == Before(p[1..], n);
      }
    }
  }

  lemma {:induction false} ExceptMembers<H>(p: seq<Pending<H>>, gone: set<nat>)
    ensures forall x :: x in Except(p, gone) <==> x in p && x.uid !in gone
  {
    if p != [] {
      ExceptMembers(p[1..], gone);
    }
  }

  lemma {:induction false} DueMembers<H>(p: seq<Pending<H>>, now: int)
    ensures forall x :: x in Due(p, now) <==> x in p && Expired(now, x.when)
  {
    if p != [] {
      DueMembers(p[1..], now);
    }
  }

  lemma {:induction false} BeforeMembers<H>(p: seq<Pending<H>>, n: nat)
    ensures forall x :: x in Before(p, n) <==> x in p && x.uid < n
  {
    if p != [] {
      BeforeMembers(p[1..], n);
    }
  }

  /**
   How the list changes while timers are added and removed: of the timers there were, exactly the removed ones
   disappear, and the others keep their order; only these or later additions can have been removed.
   */
  ghost predicate Evolved<H>(p: seq<Pending<H>>, gone: set<nat>, next: nat,
                             p': seq<Pending<H>>, gone': set<nat>, next': nat) {
    && gone <= gone' && next <= next'
    && Before(p', next) == Except(p, gone' - gone)
    && (forall u <- gone' - gone :: u >= next || HasUid(p, u))
  }

  lemma EvolvedStays<H>(p: seq<Pending<H>>, gone: set<nat>, next: nat)
    requires forall i :: 0 <= i < |p| ==> p[i].uid < next
    ensures Evolved(p, gone, next, p, gone, next)
  {
    assert gone - gone == {};
    ExceptNone(p, {});
    BeforeAll(p, next);
  }

  lemma EvolvedJoin<H>(p: seq<Pending<H>>, g: set<nat>, n: nat, p1: seq<Pending<H>>, g1: set<nat>, n1: nat,
                       p2: seq<Pending<H>>, g2: set<nat>, n2: nat)
    requires Evolved(p, g, n, p1, g1, n1) && Evolved(p1, g1, n1, p2, g2, n2)
    ensures Evolved(p, g, n, p2, g2, n2)
  {
    BeforeTwice(p2, n1, n);
    BeforeExcept(p1, g2 - g1, n);
    ExceptTwice(p, g1 - g, g2 - g1);
    assert (g1 - g) + (g2 - g1) == g2 - g;
    BeforeMembers(p1, n);
    ExceptMembers(p, g1 - g);
    forall u: nat | u < n && HasUid(p1, u)
      ensures HasUid(p, u)
    {
      var i :| 0 <= i < |p1| && p1[i].uid == u;
      assert p1[i] in Before(p1, n) && p1[i] in p;
    }
  }

  lemma EvolvedByInsert<H>(p: seq<Pending<H>>, gone: set<nat>, e: Pending<H>)
    requires forall i :: 0 <= i < |p| ==> p[i].uid < e.uid
    ensures Evolved(p, gone, e.uid, Insert(p, e), gone, e.uid + 1)
  {
    assert gone - gone == {};
    ExceptNone(p, {});
    BeforeInsert(p, e);
  }

  lemma {:induction false} BeforeInsert<H>(p: seq<Pending<H>>, e: Pending<H>)
    requires forall i :: 0 <= i < |p| ==> p[i].uid < e.uid
    ensures Before(Insert(p, e), e.uid) == p
  {
    if p == [] || SDiff(e.when, p[0].when) <= 0 {
      assert ([e] + p)[1..] == p;
      BeforeAll(p, e.uid);
    } else {
      BeforeInsert(p[1..], e);
      assert ([p[0]] + Insert(p[1..], e))[1..] == Insert(p[1..], e);
    }
  }

  lemma EvolvedByRemove<H>(p: seq<Pending<H>>, gone: set<nat>, next: nat, k: nat)
    requires k < |p| && Distinct(p) && p[k].uid !in gone
    requires forall i :: 0 <= i < |p| ==> p[i].uid < next
    ensures Evolved(p, gone, next, RemoveAt(p, k), gone + {p[k].uid}, next)
  {
    RemoveAtIsExcept(p, k);
    BeforeAll(RemoveAt(p, k), next);
    assert gone + {p[k].uid} - gone == {p[k].uid};
  }

  /** What was added since is not due yet. */
  ghost predicate NoneDueSince<H>(p: seq<Pending<H>>, next: nat, now: int) {
    forall x <- p :: x.uid >= next ==> !Expired(now, x.when)
  }

  lemma {:induction false} DueOfBefore<H>(p: seq<Pending<H>>, n: nat, now: int)
    ensures Before(Due(p, now), n) == Due(Before(p, n), now)
  {
    if p != [] {
      DueOfBefore(p[1..], n, now);
      if p[0].uid < n {
        assert Before(p, n)[1..] == Before(p[1..], n);
      } else {
        assert Before(p, n) == Before(p[1..], n);
      }
      if Expired(now, p[0].when) {
        assert Due(p, now)[1..] == Due(p[1..], now);
      } else {
        assert Due(p, now) == Due(p[1..], now);
      }
    }
  }

  /** Of what is due afterwards, the timers there were before are those that were due and have not been removed. */
  lemma DueEvolved<H>(p: seq<Pending<H>>, gone: set<nat>, next: nat, p': seq<Pending<H>>, gone': set<nat>, next': nat, now: int)
    requires Evolved(p, gone, next, p', gone', next')
    ensures Before(Due(p', now), next) == Except(Due(p, now), gone' - gone)
  {
    DueOfBefore(p', next, now);
    DueExcept(p, gone' - gone, now);
  }

  lemma RemoveKeepsSorted<H>(p: seq<Pending<H>>, k: nat, base: int)
    requires k < |p| && AllInWindow(p, base) && Sorted(p, base)
    ensures AllInWindow(RemoveAt(p, k), base) && Sorted(RemoveAt(p, k), base)
  {
    assert forall x <- RemoveAt(p, k) :: x in p;
  }

  /**
   One round of a tick. The first timer e was due and has fired, its callback turned the rest into p1, and
   the rounds after that fired f1: of the timers there were before, the rounds together fire e and those due and not removed.
   */
  lemma FiredJoin<H>(p: seq<Pending<H>>, g: set<nat>, n: nat, p1: seq<Pending<H>>, g1: set<nat>, n1: nat,
                     g2: set<nat>, f1: seq<Pending<H>>, now: int)
    requires |p| > 0 && Expired(now, p[0].when) && p[0].uid !in g2 - g && p[0].uid < n
    requires Evolved(p[1..], g, n, p1, g1, n1) && g1 <= g2
    requires Before(f1, n1) == Except(Due(p1, now), g2 - g1)
    ensures Before([p[0]] + f1, n) == Except(Due(p, now), g2 - g)
  {
    var e, rest := p[0], p[1..];
    BeforeTwice(f1, n1, n);
    BeforeExcept(Due(p1, now), g2 - g1, n);
    DueEvolved(rest, g, n, p1, g1, n1, now);
    ExceptTwice(Due(rest, now), g1 - g, g2 - g1);
    assert (g1 - g) + (g2 - g1) == g2 - g;
    assert Before(f1, n) == Except(Due(rest, now), g2 - g);
    FirstStays(e, f1, Due(rest, now), g2 - g, n);
    assert Due(p, now) == [e] + Due(rest, now);
  }

  lemma FirstStays<H>(e: Pending<H>, f: seq<Pending<H>>, d: seq<Pending<H>>, gone: set<nat>, n: nat)
    requires e.uid < n && e.uid !in gone && Before(f, n) == Except(d, gone)
    ensures Before([e] + f, n) == Except([e] + d, gone)
  {
    assert ([e] + f)[1..] == f && ([e] + d)[1..] == d;
  }

  lemma LeftJoin<H>(p: seq<Pending<H>>, g: set<nat>, n: nat, p1: seq<Pending<H>>, g1: set<nat>, n1: nat,
                    p2: seq<Pending<H>>, g2: set<nat>, f1: seq<Pending<H>>)
    requires |p| > 0 && Distinct(p) && Evolved(p[1..], g, n, p1, g1, n1) && g1 <= g2
    requires Before(p2, n1) == Except(p1, g2 - g1 + Uids(f1))
    ensures Before(p2, n) == Except(p, g2 - g + Uids([p[0]] + f1))
  {
    var e, rest := p[0], p[1..];
    var d := g2 - g + Uids(f1);
    BeforeTwice(p2, n1, n);
    BeforeExcept(p1, g2 - g1 + Uids(f1), n);
    ExceptTwice(rest, g1 - g, g2 - g1 + Uids(f1));
    assert (g1 - g) + (g2 - g1 + Uids(f1)) == d;
    UidsOfCons(e, f1);
    assert g2 - g + Uids([e] + f1) == {e.uid} + d;
    ExceptFirst(p, d);
  }

  lemma ExceptFirst<H>(p: seq<Pending<H>>, gone: set<nat>)
    requires |p| > 0 && Distinct(p)
    ensures Except(p, {p[0].uid} + gone) == Except(p[1..], gone)
  {
    forall x | x in p[1..]
      ensures x.uid !in {p[0].uid}
    {
      var i :| 1 <= i < |p| && p[i] == x;
      assert p[0].uid != p[i].uid;
    }
    ExceptNone(p[1..], {p[0].uid});
    ExceptTwice(p[1..], {p[0].uid}, gone);
  }

  lemma UidsOfCons<H>(e: Pending<H>, f: seq<Pending<H>>)
    ensures Uids([e] + f) == Uids(f) + {e.uid}
  {
    UidsJoin([e], f);
    UidsOfOne(e);
  }

  lemma UidsOfInsert<H>(p: seq<Pending<H>>, e: Pending<H>)
    ensures Uids(Insert(p, e)) == Uids(p) + {e.uid}
  {
    var k := ScanPosition(p, e);
    var front, back := p[..k], p[k..];
    assert p == front + back;
    UidsAround(front, e, back);
  }

  lemma UidsAround<H>(front: seq<Pending<H>>, e: Pending<H>, back: seq<Pending<H>>)
    ensures Uids(front + [e] + back) == Uids(front + back) + {e.uid}
  {
    UidsJoin(front + [e], back);
    UidsJoin(front, [e]);
    UidsJoin(front, back);
    UidsOfOne(e);
  }

  lemma UidsOfOne<H>(e: Pending<H>)
    ensures Uids([e]) == {e.uid}
  {
    assert [e][0] == e;
  }

  lemma UidsJoin<H>(p: seq<Pending<H>>, q: seq<Pending<H>>)
    ensures Uids(p + q) == Uids(p) + Uids(q)
  {
    var r := p + q;
    assert forall i :: 0 <= i < |p| ==> r[i] == p[i];
    forall u | u in Uids(q)
      ensures u in Uids(r)
    {
      var i := UidAt(q, u);
      assert r[|p| + i] == q[i];
    }
  }

  lemma UidAt<H>(p: seq<Pending<H>>, u: nat) returns (i: nat)
    requires u in Uids(p)
    ensures i < |p| && p[i].uid == u && p[i] in p
  {
    i :| 0 <= i < |p| && p[i].uid == u;
  }

  lemma UidsOfRemoveAt<H>(p: seq<Pending<H>>, k: nat)
    requires k < |p| && Distinct(p)
    ensures Uids(RemoveAt(p, k)) == Uids(p) - {p[k].uid}
  {
    var r := RemoveAt(p, k);
    forall u | u in Uids(p) && u != p[k].uid
      ensures u in Uids(r)
    {
      var i := UidAt(p, u);
      assert r[if i < k then i else i - 1].uid == u;
    }
    forall u | u in Uids(r)
      ensures u in Uids(p) && u != p[k].uid
    {
      var i := UidAt(r, u);
      assert p[if i < k then i else i + 1].uid == u;
    }
  }

  /** A timer from before that is still there was there. */
  lemma OldUids<H>(p: seq<Pending<H>>, g: set<nat>, n: nat, p1: seq<Pending<H>>, g1: set<nat>, n1: nat)
    requires Evolved(p, g, n, p1, g1, n1)
    ensures forall u: nat :: u < n && HasUid(p1, u) ==> HasUid(p, u)
  {
    BeforeMembers(p1, n);
    ExceptMembers(p, g1 - g);
    forall u: nat | u < n && HasUid(p1, u)
      ensures HasUid(p, u)
    {
      var i :| 0 <= i < |p1| && p1[i].uid == u;
      assert p1[i] in Before(p1, n) && p1[i] in p;
    }
  }

  /** A timer that has fired cannot be removed afterwards. */
  lemma NotAgain<H>(p: seq<Pending<H>>, g: set<nat>, n: nat, p1: seq<Pending<H>>, g1: set<nat>, n1: nat, g2: set<nat>)
    requires |p| > 0 && Distinct(p) && forall i :: 0 <= i < |p| ==> p[i].uid < n
    requires Evolved(p[1..], g, n, p1, g1, n1)
    requires g1 <= g2 && forall u <- g2 - g1 :: u >= n1 || HasUid(p1, u)
    ensures p[0].uid !in g2 - g
    ensures forall u <- g2 - g :: u >= n || HasUid(p, u)
  {
    OldUids(p[1..], g, n, p1, g1, n1);
    forall u: nat | u in g2 - g
      ensures u != p[0].uid && (u >= n || HasUid(p, u))
    {
      if u < n {
        assert HasUid(p[1..], u);
        var i :| 0 <= i < |p[1..]| && p[1..][i].uid == u;
        assert p[i + 1].uid == u;
      }
    }
  }
}
