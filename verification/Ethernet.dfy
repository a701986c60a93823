/**
 Reception in src/common/pf_eth.c: VLAN tags are skipped, and a Profinet frame goes to the handler
 that is registered for its frame id.
 */
module Ethernet {
  import opened Bytes
  import opened Options

  const ETHTYPE_VLAN: nat := 0x8100
  const ETHTYPE_PROFINET: nat := 0x8892

  /** The first position from `at`, in steps of a VLAN tag, that holds another Ethertype; None if the payload ends first. */
  function TypePos(payload: seq<byte>, at: nat): (r: Option<nat>)
    ensures r.Some? ==> at <= r.value && r.value + 2 <= |payload| && Get16(payload, r.value) != ETHTYPE_VLAN
    decreases |payload| - at
  {
    if at + 2 > |payload| then None
    else if Get16(payload, at) == ETHTYPE_VLAN then TypePos(payload, at + 4)
    else Some(at)
  }

  /**
   The loop of pf_eth_recv. It compares nothing with the length of the payload: `past` says that the source goes on
   reading behind its end.
   */
  method SkipVlanTags(payload: seq<byte>) returns (pos: nat, past: bool)
    ensures past <==> TypePos(payload, 12).None?
    ensures !past ==> Some(pos) == TypePos(payload, 12)
  {
    pos := 12;
    while pos + 2 <= |payload| && Get16(payload, pos) == ETHTYPE_VLAN
      invariant TypePos(payload, pos) == TypePos(payload, 12)
      decreases |payload| - pos
    {
      pos := pos + 4;
    }
    past := pos + 2 > |payload|;
  }

  /** That happens exactly if every type up to the end of the payload is VLAN. */
  lemma {:induction false} ReadsPastExactly(payload: seq<byte>, at: nat)
    ensures TypePos(payload, at).None? <==>
      forall k: nat :: at + 4 * k + 2 <= |payload| ==> IsTag(payload, at, k)
    decreases |payload| - at
  {
    if at + 2 <= |payload| {
      if Get16(payload, at) == ETHTYPE_VLAN {
        ReadsPastExactly(payload, at + 4);
        forall k: nat | at + 4 * k + 2 <= |payload|
          ensures k > 0 ==> (IsTag(payload, at, k) <==> IsTag(payload, at + 4, k - 1))
        {
        }
        forall k: nat | at + 4 + 4 * k + 2 <= |payload|
          ensures IsTag(payload, at + 4, k) <==> IsTag(payload, at, k + 1)
        {
        }
      } else {
        assert !IsTag(payload, at, 0);
      }
    }
  }

  predicate IsTag(payload: seq<byte>, at: nat, k: nat)
    requires at + 4 * k + 2 <= |payload|
  {
    Get16(payload, at + 4 * k) == ETHTYPE_VLAN
  }

  /** However many tags there are, the loop finds the type behind them. */
  lemma {:induction false} TagsAreSkipped(payload: seq<byte>, at: nat, tags: nat)
    requires at + 4 * tags + 2 <= |payload|
    requires forall k :: 0 <= k < tags ==> Get16(payload, at + 4 * k) == ETHTYPE_VLAN
    requires Get16(payload, at + 4 * tags) != ETHTYPE_VLAN
    ensures TypePos(payload, at) == Some(at + 4 * tags)
    decreases tags
  {
    if tags > 0 {
      assert Get16(payload, at + 4 * 0) == ETHTYPE_VLAN;
      forall k | 0 <= k < tags - 1
        ensures Get16(payload, at + 4 + 4 * k) == ETHTYPE_VLAN
      {
        assert Get16(payload, at + 4 * (k + 1)) == ETHTYPE_VLAN;
      }
      TagsAreSkipped(payload, at + 4, tags - 1);
    }
  }

  /** pf_eth_frame_id_map_t; handlers are numbered. */
  datatype Entry = Entry(inUse: bool, frameId: nat, handler: nat)

  /** The first entry in use for the id, or the length. */
  function FirstUse(m: seq<Entry>, id: nat): (r: nat)
    ensures r <= |m| && (r < |m| ==> m[r].inUse && m[r].frameId == id)
    ensures forall i :: 0 <= i < r ==> !(m[i].inUse && m[i].frameId == id)
  {
    if m == [] then 0
    else if m[0].inUse && m[0].frameId == id then 0
    else
      assert forall i :: 0 < i < |m| ==> m[i] == m[1..][i - 1];
      1 + FirstUse(m[1..], id)
  }

  /** The first entry that is not in use, or the length. */
  function FirstFree(m: seq<Entry>): (r: nat)
    ensures r <= |m| && (r < |m| ==> !m[r].inUse) && forall i :: 0 <= i < r ==> m[i].inUse
  {
    if m == [] then 0
    else if !m[0].inUse then 0
    else
      assert forall i :: 0 < i < |m| ==> m[i] == m[1..][i - 1];
      1 + FirstFree(m[1..])
  }

  /** The handler that frames with the id go to. */
  function Lookup(m: seq<Entry>, id: nat): Option<nat> {
    var k := FirstUse(m, id);
    if k < |m| then Some(m[k].handler) else None
  }

  /** At most one entry in use per frame id. */
  predicate Unique(m: seq<Entry>) {
    forall i, j :: 0 <= i < j < |m| && m[i].inUse && m[j].inUse ==> m[i].frameId != m[j].frameId
  }

  /** The handler lookup of pf_eth_recv. */
  method Dispatch(m: array<Entry>, id: nat) returns (handler: Option<nat>)
    ensures handler == Lookup(m[..], id)
  {
    var ix := 0;
    while ix < m.Length && (!m[ix].inUse || m[ix].frameId != id)
      invariant 0 <= ix <= m.Length
      invariant forall j :: 0 <= j < ix ==> !(m[j].inUse && m[j].frameId == id)
    {
      ix := ix + 1;
    }
    assert ix == FirstUse(m[..], id);
    handler := if ix < m.Length then Some(m[ix].handler) else None;
  }

  function Added(m: seq<Entry>, id: nat, handler: nat): seq<Entry> {
    var k := FirstFree(m);
    if k < |m| then m[k := Entry(true, id, handler)] else m
  }

  /** pf_eth_frame_id_map_add */
  method Add(m: array<Entry>, id: nat, handler: nat)
    modifies m
    ensures m[..] == Added(old(m[..]), id, handler)
  {
    var ix := 0;
    while ix < m.Length && m[ix].inUse
      invariant 0 <= ix <= m.Length
      invariant forall j :: 0 <= j < ix ==> m[j].inUse
      invariant m[..] == old(m[..])
    {
      ix := ix + 1;
    }
    assert ix == FirstFree(m[..]);
    if ix < m.Length {
      m[ix] := Entry(true, id, handler);
    }
  }

  /**
   An id that is added goes to the new handler exactly if there is an unused entry before any entry it has already; all
   other ids keep their handler. An id that is added twice has two entries.
   */
  lemma AddDecides(m: seq<Entry>, id: nat, handler: nat, other: nat)
    ensures var r := Added(m, id, handler); var k := FirstFree(m);
      && Lookup(r, id) == (if k < |m| && k < FirstUse(m, id) then Some(handler) else Lookup(m, id))
      && (other != id ==> Lookup(r, other) == Lookup(m, other))
      && (Unique(m) ==> (Unique(r) <==> k == |m| || FirstUse(m, id) == |m|))
  {
    var r, k, u := Added(m, id, handler), FirstFree(m), FirstUse(m, id);
    if k < |m| {
      SameFirstUse(m, r, id, if k < u then k else u);
      if other != id {
        SameFirstUse(m, r, other, FirstUse(m, other));
      }
      if u < |m| {
        assert r[u] == m[u] && r[k] == Entry(true, id, handler) && u != k;
      }
    }
  }

  /** The first use is where it is seen to be. */
  lemma SameFirstUse(m: seq<Entry>, r: seq<Entry>, id: nat, k: nat)
    requires |r| == |m| && k <= |r|
    requires forall i :: 0 <= i < k ==> !(r[i].inUse && r[i].frameId == id)
    requires k < |r| ==> r[k].inUse && r[k].frameId == id
    ensures FirstUse(r, id) == k
  {
  }

  function Removed(m: seq<Entry>, id: nat): seq<Entry> {
    var k := FirstUse(m, id);
    if k < |m| then m[k := m[k].(inUse := false)] else m
  }

  /** pf_eth_frame_id_map_remove */
  method Remove(m: array<Entry>, id: nat)
    modifies m
    ensures m[..] == Removed(old(m[..]), id)
  {
    var ix := 0;
    while ix < m.Length && (!m[ix].inUse || m[ix].frameId != id)
      invariant 0 <= ix <= m.Length
      invariant forall j :: 0 <= j < ix ==> !(m[j].inUse && m[j].frameId == id)
      invariant m[..] == old(m[..])
    {
      ix := ix + 1;
    }
    assert ix == FirstUse(m[..], id);
    if ix < m.Length {
      m[ix] := m[ix].(inUse := false);
    }
  }

  /** The id has no handler any more if and only if it had at most one entry; all other ids keep theirs. */
  lemma RemoveDecides(m: seq<Entry>, id: nat, other: nat)
    ensures var r := Removed(m, id);
      && (Lookup(r, id) == None <==>
            forall i, j :: 0 <= i < j < |m| ==> !(Uses(m, i, id) && Uses(m, j, id)))
      && (other != id ==> Lookup(r, other) == Lookup(m, other))
      && (Unique(m) ==> Unique(r) && Lookup(r, id) == None)
  {
    var r, u := Removed(m, id), FirstUse(m, id);
    if other != id {
      SameFirstUse(m, r, other, FirstUse(m, other));
    }
    if u < |m| {
      var v := FirstUse(r, id);
      assert forall j :: 0 <= j < |m| && j != u ==> r[j] == m[j];
      if v < |m| {
        assert u < v && Uses(m, u, id) && Uses(m, v, id);
      } else {
        assert forall j :: u < j < |m| ==> !(r[j].inUse && r[j].frameId == id);
      }
    }
  }

  predicate Uses(m: seq<Entry>, i: nat, id: nat)
    requires i < |m|
  {
    m[i].inUse && m[i].frameId == id
  }

  /** What becomes of a payload. */
  datatype Reception =
    | ReadsPast                               // the source reads behind the end of the payload
    | Elsewhere                               // not a Profinet frame, or no handler for its frame id
    | Handled(handler: nat, framePos: nat)    // the handler is told where the frame id is

  /** pf_eth_recv, for Profinet frames */
  function Receive(m: seq<Entry>, payload: seq<byte>): Reception {
    match TypePos(payload, 12)
    case None => ReadsPast
    case Some(pos) =>
      if Get16(payload, pos) != ETHTYPE_PROFINET then Elsewhere
      else if pos + 4 > |payload| then ReadsPast
      else
        match Lookup(m, Get16(payload, pos + 2))
        case None => Elsewhere
        case Some(handler) => Handled(handler, pos + 2)
  }

  /** Behind k tags there is a Profinet type, and not even the frame id fits behind it. */
  predicate EndsAtType(payload: seq<byte>, k: nat) {
    && 12 + 4 * k + 2 <= |payload| < 12 + 4 * k + 4
    && Get16(payload, 12 + 4 * k) == ETHTYPE_PROFINET
    && (forall j :: 0 <= j < k ==> IsTag(payload, 12, j))
  }

  /**
   Reception reads behind the end of the payload if and only if every type up to the end is VLAN, or the first other one
   is Profinet and is the last thing there.
   */
  lemma ReceptionPastEnd(m: seq<Entry>, payload: seq<byte>)
    ensures Receive(m, payload) == ReadsPast <==>
      || (forall k: nat :: 12 + 4 * k + 2 <= |payload| ==> IsTag(payload, 12, k))
      || (exists k: nat :: EndsAtType(payload, k))
  {
    ReadsPastExactly(payload, 12);
    if k: nat :| EndsAtType(payload, k) {
      forall j | 0 <= j < k
        ensures Get16(payload, 12 + 4 * j) == ETHTYPE_VLAN
      {
        assert IsTag(payload, 12, j);
      }
      TagsAreSkipped(payload, 12, k);
    }
    if TypePos(payload, 12).Some? {
      var n := TagsBefore(payload, 12);
      assert Receive(m, payload) == ReadsPast ==> EndsAtType(payload, n);
    }
  }

  /** Only tags come before the type that is found. */
  lemma {:induction false} TagsBefore(payload: seq<byte>, at: nat) returns (n: nat)
    requires TypePos(payload, at).Some?
    ensures TypePos(payload, at) == Some(at + 4 * n) && at + 4 * n + 2 <= |payload|
    ensures forall k :: 0 <= k < n ==> IsTag(payload, at, k)
    decreases |payload| - at
  {
    if Get16(payload, at) == ETHTYPE_VLAN {
      var m := TagsBefore(payload, at + 4);
      n := m + 1;
      forall k | 0 <= k < n
        ensures IsTag(payload, at, k)
      {
        assert k > 0 ==> IsTag(payload, at + 4, k - 1);
      }
    } else {
      n := 0;
    }
  }

  /** Behind k VLAN tags, and none or more, there is a Profinet type and the frame id. */
  predicate Carries(payload: seq<byte>, k: nat, id: nat) {
    && 12 + 4 * k + 4 <= |payload| && (forall j :: 0 <= j < k ==> IsTag(payload, 12, j))
    && Get16(payload, 12 + 4 * k) == ETHTYPE_PROFINET && Get16(payload, 14 + 4 * k) == id
  }

  lemma CarriedIsFound(m: seq<Entry>, payload: seq<byte>, k: nat, id: nat)
    requires Carries(payload, k, id)
    ensures Receive(m, payload) ==
      match Lookup(m, id) case None => Elsewhere case Some(handler) => Handled(handler, 14 + 4 * k)
  {
    forall j | 0 <= j < k
      ensures Get16(payload, 12 + 4 * j) == ETHTYPE_VLAN
    {
      assert IsTag(payload, 12, j);
    }
    TagsAreSkipped(payload, 12, k);
  }

  /** A payload is handled if and only if it carries an id that is in use; then by that handler, with the position of the id. */
  lemma HandledBehindTags(m: seq<Entry>, payload: seq<byte>, handler: nat, framePos: nat)
    ensures Receive(m, payload) == Handled(handler, framePos) <==>
      exists k: nat, id: nat :: Carries(payload, k, id) && framePos == 14 + 4 * k && Lookup(m, id) == Some(handler)
  {
    if k: nat, id: nat :| Carries(payload, k, id) && framePos == 14 + 4 * k && Lookup(m, id) == Some(handler) {
      CarriedIsFound(m, payload, k, id);
    }
    if Receive(m, payload) == Handled(handler, framePos) {
      var k := TagsBefore(payload, 12);
      assert Carries(payload, k, Get16(payload, 14 + 4 * k));
    }
  }

  method ReceiveFrame(m: array<Entry>, payload: seq<byte>) returns (r: Reception)
    ensures r == Receive(m[..], payload)
  {
    var pos, past := SkipVlanTags(payload);
    if past {
      return ReadsPast;
    }
    if Get16(payload, pos) != ETHTYPE_PROFINET {
      return Elsewhere;
    }
    var framePos := pos + 2;
    if framePos + 2 > |payload| {
      return ReadsPast;
    }
    var handler := Dispatch(m, Get16(payload, framePos));
    r := if handler.Some? then Handled(handler.value, framePos) else Elsewhere;
  }
}
