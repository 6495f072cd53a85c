/**
 The pending-request table of a CFdbSession: requests are numbered, wait for a response,
 a timeout or the end of the session, and hand over their completion.
 */
module Pending {
  import opened Common

  datatype MessageType = Request | Reply | Sideband | SidebandReply | Status | Subscription

  datatype Message = Message(objectId: int, sync: bool, kind: MessageType)

  /** What decides the course of a response: its header, and whether the object is known. */
  datatype Response = Response(sn: nat, objectId: int, kind: MessageType, eventGet: bool, objectKnown: bool)

  datatype Callback = DoReply | DoGetEvent | OnSidebandReply | DoStatus

  datatype Ending = Answered | WrongObject | Terminated(status: int)

  /** Send number `k` left the table in this way. */
  datatype Departure = Departure(k: nat, ending: Ending)

  /** The completion of send number `k` was handed to its object. */
  datatype Handover = Handover(k: nat, callback: Callback)

  /**
   A session since it was created. `pending` maps a serial number to the send it
   stands for; `entered` are the sends that were put in the table.
   */
  datatype Table = Table(sent: seq<Message>, pending: map<nat, nat>, entered: set<nat>,
                         departures: seq<Departure>, handovers: seq<Handover>)

  datatype Op =
    | Send(msg: Message, written: bool)
    | Receive(response: Response)
    | Terminate(sn: nat, status: int)

  const PEER_VANISH := -18

  /** The allocator is a 32-bit counter that starts at zero. */
  function SerialNumber(k: nat): (sn: nat)
    ensures sn < UINT32_SPAN
  {
    k % UINT32_SPAN
  }

  function Empty(): Table {
    Table([], map[], {}, [], [])
  }

  /** The callback a response leads to, if any. */
  function CallbackFor(msg: Message, r: Response): Option<Callback> {
    if msg.sync then None
    else if r.kind == Reply then Some(if r.eventGet then DoGetEvent else DoReply)
    else if r.kind == SidebandReply then Some(OnSidebandReply)
    else if r.kind == Status then
      if msg.kind == Request then Some(if r.eventGet then DoGetEvent else DoReply)
      else if msg.kind == Sideband then Some(OnSidebandReply)
      else Some(DoStatus)
    else None
  }

  function HandOver(t: Table, k: nat, callback: Option<Callback>): Table {
    if callback.Some? then t.(handovers := t.handovers + [Handover(k, callback.value)]) else t
  }

  function Leave(t: Table, sn: nat, ending: Ending): Table
    requires sn in t.pending
  {
    t.(departures := t.departures + [Departure(t.pending[sn], ending)], pending := t.pending - {sn})
  }

  function Apply(t: Table, op: Op): Table
    requires Inv(t)
  {
    match op
    case Send(msg, written) =>
      var k, sn := |t.sent|, SerialNumber(|t.sent|);
      var t' := t.(sent := t.sent + [msg]);
      if !written then HandOver(t', k, if msg.sync then None else Some(DoReply))
      else if sn in t.pending then t'  // insertEntry refuses; nobody looks
      else t'.(pending := t.pending[sn := k], entered := t.entered + {k})
    case Receive(r) =>
      if r.sn !in t.pending then t else
      var k := t.pending[r.sn];
      var msg := t.sent[k];
      if msg.objectId != r.objectId then
        Leave(HandOver(t, k, if msg.sync then None else Some(DoReply)), r.sn, WrongObject)
      else
        Leave(if r.objectKnown then HandOver(t, k, CallbackFor(msg, r)) else t, r.sn, Answered)
    case Terminate(sn, status) =>
      if sn !in t.pending then t else
      var k := t.pending[sn];
      Leave(HandOver(t, k, if t.sent[k].sync then None else Some(DoReply)), sn, Terminated(status))
  }

  // ------------------------------------------------------------------- invariants

  predicate Left(t: Table, k: nat) {
    exists i :: 0 <= i < |t.departures| && t.departures[i].k == k
  }

  predicate Waiting(t: Table, k: nat) {
    SerialNumber(k) in t.pending && t.pending[SerialNumber(k)] == k
  }

  /** Entries sit under their own serial number and were entered. */
  predicate EntriesOwn(t: Table) {
    forall sn :: sn in t.pending ==> t.pending[sn] < |t.sent| && SerialNumber(t.pending[sn]) == sn && t.pending[sn] in t.entered
  }

  /** Each send leaves at most once, only if it entered, and is not in the table after that. */
  predicate LeftOnce(t: Table) {
    && (forall i, j :: 0 <= i < j < |t.departures| ==> t.departures[i].k != t.departures[j].k)
    && (forall i :: 0 <= i < |t.departures| ==> t.departures[i].k in t.entered && !Waiting(t, t.departures[i].k))
    && (forall k :: k in t.entered ==> k < |t.sent| && (Waiting(t, k) || Left(t, k)))
  }

  /** Each completion is handed over at most once, and not while the request waits. */
  predicate HandedOnce(t: Table) {
    && (forall i, j :: 0 <= i < j < |t.handovers| ==> t.handovers[i].k != t.handovers[j].k)
    && (forall i :: 0 <= i < |t.handovers| ==>
          var k := t.handovers[i].k;
          k < |t.sent| && !Waiting(t, k) && !t.sent[k].sync && (k in t.entered ==> Left(t, k)))
  }

  predicate Reported(t: Table, k: nat) {
    exists i :: 0 <= i < |t.handovers| && t.handovers[i].k == k
  }

  /** A request that failed after it was sent is reported, unless its caller blocks. */
  predicate FailuresReported(t: Table) {
    forall i :: 0 <= i < |t.departures| ==>
      var d := t.departures[i];
      d.k < |t.sent| && (d.ending != Answered && !t.sent[d.k].sync ==> Reported(t, d.k))
  }

  predicate Inv(t: Table) {
    EntriesOwn(t) && LeftOnce(t) && HandedOnce(t) && FailuresReported(t)
  }

  lemma SendKeeps(t: Table, msg: Message, written: bool)
    requires Inv(t)
    ensures Inv(Apply(t, Send(msg, written)))
  {
    var t' := Apply(t, Send(msg, written));
    var k := |t.sent|;
    assert t'.departures == t.departures && k !in t.entered;
    forall n: nat | n < k ensures Waiting(t', n) == Waiting(t, n) && Left(t', n) == Left(t, n) {
    }
    ReportsGrow(t, t');
  }

  lemma ReportsGrow(t: Table, t': Table)
    requires t.handovers <= t'.handovers
    ensures forall k: nat :: Reported(t, k) ==> Reported(t', k)
  {
    forall k: nat | Reported(t, k) ensures Reported(t', k) {
      var i :| 0 <= i < |t.handovers| && t.handovers[i].k == k;
      assert t'.handovers[i].k == k;
    }
  }

  lemma LeaveReports(t: Table, sn: nat, callback: Option<Callback>, ending: Ending)
    requires FailuresReported(t) && sn in t.pending && t.pending[sn] < |t.sent|
    requires ending != Answered && !t.sent[t.pending[sn]].sync ==> callback.Some?
    ensures FailuresReported(Leave(HandOver(t, t.pending[sn], callback), sn, ending))
  {
    var k := t.pending[sn];
    var t' := Leave(HandOver(t, k, callback), sn, ending);
    ReportsGrow(t, t');
    assert callback.Some? ==> t'.handovers[|t.handovers|].k == k;
  }

  /** Taking one entry out, its completion handed over or not. */
  lemma LeaveKeeps(t: Table, sn: nat, callback: Option<Callback>, ending: Ending)
    requires Inv(t) && sn in t.pending && (callback.Some? ==> !t.sent[t.pending[sn]].sync)
    requires ending != Answered && !t.sent[t.pending[sn]].sync ==> callback.Some?
    ensures Inv(Leave(HandOver(t, t.pending[sn], callback), sn, ending))
  {
    var k := t.pending[sn];
    var t' := Leave(HandOver(t, k, callback), sn, ending);
    assert Waiting(t, k) && t'.departures[|t.departures|].k == k;
    LeaveReports(t, sn, callback, ending);
    hide FailuresReported;
    forall n: nat ensures Waiting(t', n) == (Waiting(t, n) && n != k) && Left(t', n) == (Left(t, n) || n == k) {
      if Left(t, n) {
        var i :| 0 <= i < |t.departures| && t.departures[i].k == n;
        assert t'.departures[i].k == n;
      }
    }
  }

  lemma ApplyKeeps(t: Table, op: Op)
    requires Inv(t)
    ensures Inv(Apply(t, op))
  {
    match op
    case Send(msg, written) => SendKeeps(t, msg, written);
    case Receive(r) =>
      if r.sn in t.pending {
        var msg := t.sent[t.pending[r.sn]];
        LeaveKeeps(t, r.sn, if msg.sync then None else Some(DoReply), WrongObject);
        LeaveKeeps(t, r.sn, CallbackFor(msg, r), Answered);
        LeaveKeeps(t, r.sn, None, Answered);
      }
    case Terminate(sn, status) =>
      if sn in t.pending {
        LeaveKeeps(t, sn, if t.sent[t.pending[sn]].sync then None else Some(DoReply), Terminated(status));
      }
  }

  // ------------------------------------------------------------------------- runs

  function Run(ops: seq<Op>): (t: Table)
    ensures Inv(t)
  {
    if ops == [] then Empty() else
    var t := Run(ops[..|ops| - 1]);
    ApplyKeeps(t, ops[|ops| - 1]);
    Apply(t, ops[|ops| - 1])
  }

  /** How often send number `k` left the table. */
  function Departed(departures: seq<Departure>, k: nat): nat {
    if departures == [] then 0
    else Departed(departures[..|departures| - 1], k) + (if departures[|departures| - 1].k == k then 1 else 0)
  }

  lemma {:induction false} DepartedCounts(d: seq<Departure>, k: nat)
    requires forall i, j :: 0 <= i < j < |d| ==> d[i].k != d[j].k
    ensures Departed(d, k) == (if exists i :: 0 <= i < |d| && d[i].k == k then 1 else 0)
  {
    if d != [] {
      var init := d[..|d| - 1];
      DepartedCounts(init, k);
      if i :| 0 <= i < |d| && d[i].k == k {
        if i < |d| - 1 {
          assert init[i].k == k;
        }
      }
    }
  }

  /** In every run, a request that entered the table is in it or has left it exactly once, never both. */
  lemma RunsLeaveOnce(ops: seq<Op>, k: nat)
    ensures var t := Run(ops);
            && (k in t.entered ==> Departed(t.departures, k) == (if Waiting(t, k) then 0 else 1))
            && (k !in t.entered ==> Departed(t.departures, k) == 0 && !Waiting(t, k))
  {
    var t := Run(ops);
    DepartedCounts(t.departures, k);
  }

  function Handed(handovers: seq<Handover>, k: nat): nat {
    if handovers == [] then 0
    else Handed(handovers[..|handovers| - 1], k) + (if handovers[|handovers| - 1].k == k then 1 else 0)
  }

  lemma {:induction false} HandedCounts(h: seq<Handover>, k: nat)
    requires forall i, j :: 0 <= i < j < |h| ==> h[i].k != h[j].k
    ensures Handed(h, k) == (if exists i :: 0 <= i < |h| && h[i].k == k then 1 else 0)
  {
    if h != [] {
      var init := h[..|h| - 1];
      HandedCounts(init, k);
      if i :| 0 <= i < |h| && h[i].k == k {
        if i < |h| - 1 {
          assert init[i].k == k;
        }
      }
    }
  }

  /** In every run, a completion is handed over at most once, never while the request waits, never to a blocked caller. */
  lemma RunsHandOverOnce(ops: seq<Op>, k: nat)
    ensures var t := Run(ops);
            && Handed(t.handovers, k) <= 1
            && (Handed(t.handovers, k) == 1 ==> k < |t.sent| && !t.sent[k].sync && !Waiting(t, k))
  {
    HandedCounts(Run(ops).handovers, k);
  }

  /** In every run, an asynchronous request that ends otherwise than by an answer is handed over exactly once. */
  lemma FailuresHandedOverOnce(ops: seq<Op>, i: nat)
    requires i < |Run(ops).departures| && Run(ops).departures[i].ending != Answered
    ensures var t := Run(ops); var k := t.departures[i].k;
            k < |t.sent| && Handed(t.handovers, k) == (if t.sent[k].sync then 0 else 1)
  {
    var t := Run(ops);
    HandedCounts(t.handovers, t.departures[i].k);
  }

  /**
   A response to a waiting request hands the completion over exactly if the caller does
   not block and either the object does not match, or it is known and the response is of
   a kind that answers.
   */
  lemma AnswerHandedOverIff(t: Table, r: Response)
    requires Inv(t) && r.sn in t.pending
    ensures var t' := Apply(t, Receive(r));
            var msg := t.sent[t.pending[r.sn]];
            && Left(t', t.pending[r.sn]) && !Waiting(t', t.pending[r.sn])
            && (Reported(t', t.pending[r.sn]) <==>
                  !msg.sync && (msg.objectId != r.objectId || (r.objectKnown && r.kind in {Reply, SidebandReply, Status})))
  {
    var k, t' := t.pending[r.sn], Apply(t, Receive(r));
    assert Waiting(t, k) && !Reported(t, k);
    assert t'.departures[|t.departures|].k == k;
    if |t'.handovers| > |t.handovers| {
      assert t'.handovers[|t.handovers|].k == k;
    }
  }

  /**
   Which callback the completion goes to: a reply, or a status that answers a request, to
   doReply or, for an event read, doGetEvent; a sideband reply, or a status that answers a
   sideband request, to onSidebandReply; any other status to doStatus. A response that does
   not match goes to doReply as a failure; other kinds, and unknown objects, go nowhere.
   */
  lemma AnswerCallback(t: Table, r: Response, callback: Callback)
    requires Inv(t) && r.sn in t.pending && !t.sent[t.pending[r.sn]].sync
    ensures var k := t.pending[r.sn];
            var msg := t.sent[k];
            var matches := msg.objectId == r.objectId;
            var answers := r.kind == Reply || (r.kind == Status && msg.kind == Request);
            var aside := r.kind == SidebandReply || (r.kind == Status && msg.kind == Sideband);
            Apply(t, Receive(r)).handovers == t.handovers + [Handover(k, callback)] <==>
            match callback
            case DoReply => !matches || (r.objectKnown && answers && !r.eventGet)
            case DoGetEvent => matches && r.objectKnown && answers && r.eventGet
            case OnSidebandReply => matches && r.objectKnown && aside
            case DoStatus => matches && r.objectKnown && r.kind == Status && msg.kind != Request && msg.kind != Sideband
  {
    var t' := Apply(t, Receive(r));
    if t'.handovers == t.handovers {
      assert |t'.handovers| != |t.handovers + [Handover(t.pending[r.sn], callback)]|;
    } else {
      assert t'.handovers[|t.handovers|] == Handover(t.pending[r.sn], callback) <==>
             t'.handovers == t.handovers + [Handover(t.pending[r.sn], callback)];
    }
  }

  /**
   A message that is written waits under its number, unless another one does; one that is
   not written waits nowhere, and its caller, unless it blocks, is told by doReply.
   */
  lemma SendOutcome(t: Table, msg: Message, written: bool)
    requires Inv(t)
    ensures var t', k := Apply(t, Send(msg, written)), |t.sent|;
            var sn := k % 0x1_0000_0000;
            && t'.sent == t.sent + [msg] && t'.departures == t.departures
            && t'.pending == (if written && sn !in t.pending then t.pending[sn := k] else t.pending)
            && t'.entered == (if written && sn !in t.pending then t.entered + {k} else t.entered)
            && t'.handovers == t.handovers + if !written && !msg.sync then [Handover(k, DoReply)] else []
  {
    assert t.handovers + [] == t.handovers;
  }

  /** Every departure is for the reason that caused it: an answer, an object that does not match, or the status given. */
  lemma DepartsFor(t: Table, op: Op)
    requires Inv(t) && !op.Send?
    ensures var sn := if op.Receive? then op.response.sn else op.sn;
            var t' := Apply(t, op);
            if sn !in t.pending then t' == t
            else
              var k := t.pending[sn];
              var ending := if op.Terminate? then Terminated(op.status) else if t.sent[k].objectId == op.response.objectId then Answered else WrongObject;
              && t'.pending == t.pending - {sn} && t'.departures == t.departures + [Departure(k, ending)]
              && t'.sent == t.sent && t'.entered == t.entered
              && (op.Terminate? ==> t'.handovers == t.handovers + if t.sent[k].sync then [] else [Handover(k, DoReply)])
  {
    assert t.handovers + [] == t.handovers;
  }

  predicate About(op: Op, sn: nat) {
    (op.Receive? && op.response.sn == sn) || (op.Terminate? && op.sn == sn)
  }

  /**
   A late response, duplicate or timer for a request that left changes nothing, exactly
   unless a later request waits under the same number, a multiple of 2^32 sends away.
   */
  lemma LateChangesNothingIff(t: Table, k: nat, op: Op)
    requires Inv(t) && Left(t, k) && About(op, SerialNumber(k))
    ensures Apply(t, op) == t <==> !exists n: nat :: Waiting(t, n) && SerialNumber(n) == SerialNumber(k)
  {
    var sn := SerialNumber(k);
    if sn in t.pending {
      assert Waiting(t, t.pending[sn]);
      assert |Apply(t, op).departures| == |t.departures| + 1;
    }
  }

  /** Within the first 2^32 sends there is no such request. */
  lemma LateChangesNothing(t: Table, k: nat, op: Op)
    requires Inv(t) && Left(t, k) && About(op, SerialNumber(k)) && |t.sent| <= UINT32_SPAN
    ensures Apply(t, op) == t
  {
    LateChangesNothingIff(t, k, op);
    var i :| 0 <= i < |t.departures| && t.departures[i].k == k;
    assert k in t.entered && !Waiting(t, k) && k < |t.sent|;
    hide LeftOnce, HandedOnce, FailuresReported, Apply;
    forall n: nat | Waiting(t, n) ensures SerialNumber(n) != SerialNumber(k) {
      assert n < |t.sent| && n != k;
    }
  }

  /** A request is left untracked although written exactly when its number is still in use. */
  lemma UntrackedIff(t: Table, msg: Message)
    requires Inv(t)
    ensures |t.sent| in Apply(t, Send(msg, true)).entered
            <==> !exists n: nat :: Waiting(t, n) && SerialNumber(n) == SerialNumber(|t.sent|)
    ensures |t.sent| < UINT32_SPAN ==> |t.sent| in Apply(t, Send(msg, true)).entered
  {
    var sn := SerialNumber(|t.sent|);
    assert |t.sent| !in t.entered;
    if sn in t.pending {
      assert Waiting(t, t.pending[sn]);
    }
  }

  /** Since `t`, requests only left the table, because the peer vanished. */
  predicate VanishedSince(t: Table, t': Table) {
    && t'.sent == t.sent && t'.entered == t.entered && t.departures <= t'.departures
    && forall i :: |t.departures| <= i < |t'.departures| ==> t'.departures[i].ending == Terminated(PEER_VANISH)
  }

  lemma VanishStep(t: Table, t': Table)
    requires Inv(t') && VanishedSince(t, t')
    ensures forall sn :: VanishedSince(t, Apply(t', Terminate(sn, PEER_VANISH)))
  {
  }

  lemma NothingWaits(t: Table)
    requires Inv(t) && t.pending == map[]
    ensures forall k :: k in t.entered ==> Left(t, k)
  {
  }

  // ------------------------------------------------------------------ the session

  class RequestSession {
    var nextSn: nat
    var pending: map<nat, Message>
    ghost var view: Table

    ghost predicate Valid()
      reads this
    {
      && Inv(view) && nextSn == SerialNumber(|view.sent|) && pending.Keys == view.pending.Keys
      && forall sn :: sn in pending ==> pending[sn] == view.sent[view.pending[sn]]
    }

    constructor ()
      ensures Valid() && view == Empty()
    {
      nextSn, pending, view := 0, map[], Empty();
    }

    /** sendMessage for a message that expects an answer; `written` is what the socket did. */
    method SendMessage(msg: Message, written: bool) returns (callback: Option<Callback>)
      requires Valid()
      modifies this
      ensures Valid() && view == Apply(old(view), Send(msg, written))
      ensures view == HandOver(old(view).(sent := view.sent, pending := view.pending, entered := view.entered), |old(view).sent|, callback)
    {
      ApplyKeeps(view, Send(msg, written));
      hide Inv;
      var sn := nextSn;
      nextSn := if nextSn == UINT32_SPAN - 1 then 0 else nextSn + 1;
      callback := None;
      if written {
        if sn !in pending {
          pending := pending[sn := msg];
        }
      } else if !msg.sync {
        callback := Some(DoReply);
      }
      view := Apply(view, Send(msg, written));
    }

    method TerminateMessage(sn: nat, status: int) returns (callback: Option<Callback>)
      requires Valid()
      modifies this`pending, this`view
      ensures Valid() && view == Apply(old(view), Terminate(sn, status))
      ensures sn in old(pending) && !old(pending)[sn].sync <==> callback == Some(DoReply)
      ensures pending == old(pending) - {sn}
    {
      ApplyKeeps(view, Terminate(sn, status));
      callback := None;
      if sn in pending {
        if !pending[sn].sync {
          callback := Some(DoReply);
        }
        pending := pending - {sn};
      }
      view := Apply(view, Terminate(sn, status));
    }

    method DoResponse(r: Response) returns (callback: Option<Callback>)
      requires Valid()
      modifies this`pending, this`view
      ensures Valid() && view == Apply(old(view), Receive(r))
      ensures callback.Some? ==> r.sn in old(view).pending && view.handovers == old(view).handovers + [Handover(old(view).pending[r.sn], callback.value)]
      ensures callback.None? ==> view.handovers == old(view).handovers
      ensures r.sn !in old(pending) || old(pending)[r.sn].sync ==> callback == None
      ensures r.sn in old(pending) && !old(pending)[r.sn].sync && old(pending)[r.sn].objectId != r.objectId ==> callback == Some(DoReply)
      ensures r.sn in old(pending) && !old(pending)[r.sn].sync && old(pending)[r.sn].objectId == r.objectId ==>
                var msg := old(pending)[r.sn];
                var answers := r.kind == Reply || (r.kind == Status && msg.kind == Request);
                && (callback == Some(DoReply) <==> r.objectKnown && answers && !r.eventGet)
                && (callback == Some(DoGetEvent) <==> r.objectKnown && answers && r.eventGet)
                && (callback == Some(OnSidebandReply) <==> r.objectKnown && (r.kind == SidebandReply || (r.kind == Status && msg.kind == Sideband)))
                && (callback == Some(DoStatus) <==> r.objectKnown && r.kind == Status && msg.kind != Request && msg.kind != Sideband)
    {
      ApplyKeeps(view, Receive(r));
      callback := None;
      if r.sn in pending {
        var msg := pending[r.sn];
        if msg.objectId != r.objectId {
          if !msg.sync {
            callback := Some(DoReply);
          }
        } else if r.objectKnown && !msg.sync {
          if r.kind == Reply || (r.kind == Status && msg.kind == Request) {
            callback := Some(if r.eventGet then DoGetEvent else DoReply);
          } else if r.kind == SidebandReply || (r.kind == Status && msg.kind == Sideband) {
            callback := Some(OnSidebandReply);
          } else if r.kind == Status {
            callback := Some(DoStatus);
          }
        }
        pending := pending - {r.sn};
      }
      view := Apply(view, Receive(r));
    }

    /** The destructor: every waiting request is told that the peer has gone. */
    method Destroy()
      requires Valid()
      modifies this
      ensures Valid() && pending == map[] && VanishedSince(old(view), view)
      ensures forall k :: k in view.entered ==> Left(view, k)
    {
      hide Inv, Apply;
      while pending != map[]
        invariant Valid() && VanishedSince(old(view), view)
        decreases |pending|
      {
        VanishStep(old(view), view);
        hide VanishedSince;
        ghost var member := Member(pending.Keys);
        var sn :| sn in pending.Keys;
        var callback := TerminateMessage(sn, PEER_VANISH);
      }
      NothingWaits(view);
    }
  }
}
